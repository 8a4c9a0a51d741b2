// The firewall configuration and its validation (plugins/core/firewall/types.go).
module FirewallConfig {
  import opened Basics

  datatype Policy = Accept | Drop | Reject

  datatype LoggingConfig = LoggingConfig(enabled: bool, logAccepts: bool, logDrops: bool)

  // A policy word is parsed case-insensitively; None is a word that is no policy.
  datatype Zone = Zone(interfaces: seq<string>, input: Option<Policy>, forward: Option<Policy>, output: Option<Policy>,
                       masquerade: bool)

  datatype Forwarding = Forwarding(src: string, dest: string)

  datatype Ports = AnyPort | PortRange(lo: nat, hi: nat)

  datatype Rule = Rule(name: string, src: string, proto: Option<string>, srcIP: Option<nat>, destIP: Option<nat>,
                       srcPort: Ports, destPort: Ports, target: Option<Policy>)

  datatype PortForward = PortForward(name: string, proto: Option<string>, srcDPort: Ports, destIP: nat,
                                     destPort: Ports, enabled: bool)

  datatype Config = Config(zones: map<string, Zone>, forwardings: seq<Forwarding>, rules: seq<Rule>,
                           portForwards: seq<PortForward>, logging: LoggingConfig)

  const ESTABLISHED_NAME := "Allow-Established-Related"

  predicate IsEstablishedRule(name: string) {
    name == ESTABLISHED_NAME || ESTABLISHED_NAME + "-" <= name
  }

  predicate ValidPorts(p: Ports) {
    p.PortRange? ==> 1 <= p.lo <= p.hi <= 65535
  }

  // The output policy is not looked at.
  predicate ValidZone(z: Zone) {
    z.interfaces != [] && z.input.Some? && z.forward.Some?
  }

  predicate ValidForwarding(f: Forwarding, zones: map<string, Zone>) {
    f.src != "" && f.dest != "" && f.src in zones && f.dest in zones
  }

  // A rule need not name a source zone.
  predicate ValidRule(r: Rule, zones: map<string, Zone>) {
    && (r.src != "" ==> r.src in zones)
    && r.target.Some?
    && (r.proto.Some? ==> r.proto.value in ["tcp", "udp", "icmp", "icmpv6"])
    && ValidPorts(r.srcPort) && ValidPorts(r.destPort)
  }

  predicate ValidPortForward(pf: PortForward) {
    && pf.srcDPort.PortRange? && ValidPorts(pf.srcDPort) && ValidPorts(pf.destPort)
    && (pf.proto.Some? ==> pf.proto.value in ["tcp", "udp"])
  }

  // No interface is listed twice, in one zone or in two.
  ghost predicate UniqueInterfaces(zones: map<string, Zone>) {
    forall a, i, b, j | a in zones && b in zones && 0 <= i < |zones[a].interfaces| && 0 <= j < |zones[b].interfaces|
                        && zones[a].interfaces[i] == zones[b].interfaces[j] ::
      a == b && i == j
  }

  ghost predicate ValidConfig(c: Config) {
    && c.zones != map[] && "" !in c.zones
    && UniqueInterfaces(c.zones)
    && (forall z <- c.zones :: ValidZone(c.zones[z]))
    && (forall f <- c.forwardings :: ValidForwarding(f, c.zones))
    && (forall r <- c.rules :: ValidRule(r, c.zones))
    && (forall pf <- c.portForwards :: ValidPortForward(pf))
  }

  // What makes a rule, a port forward and a whole configuration valid, in plain terms.
  lemma ValidRuleInPlainTerms(r: Rule, zones: map<string, Zone>)
    ensures ValidRule(r, zones) <==>
              && (r.src == "" || r.src in zones)
              && r.target != None
              && (r.proto.Some? ==> r.proto.value == "tcp" || r.proto.value == "udp" || r.proto.value == "icmp" || r.proto.value == "icmpv6")
              && (r.srcPort == AnyPort || 1 <= r.srcPort.lo <= r.srcPort.hi < 65536)
              && (r.destPort == AnyPort || 1 <= r.destPort.lo <= r.destPort.hi < 65536)
  {
  }

  lemma ValidPortForwardInPlainTerms(pf: PortForward)
    ensures ValidPortForward(pf) <==>
              && pf.srcDPort != AnyPort && 1 <= pf.srcDPort.lo <= pf.srcDPort.hi < 65536
              && (pf.destPort == AnyPort || 1 <= pf.destPort.lo <= pf.destPort.hi < 65536)
              && (pf.proto.Some? ==> pf.proto.value == "tcp" || pf.proto.value == "udp")
  {
  }

  lemma ValidInPlainTerms(c: Config)
    ensures ValidConfig(c) <==>
              && c.zones != map[] && "" !in c.zones
              && (forall a, i, b, j | a in c.zones && b in c.zones && 0 <= i < |c.zones[a].interfaces| &&
                                      0 <= j < |c.zones[b].interfaces| && !(a == b && i == j) ::
                    c.zones[a].interfaces[i] != c.zones[b].interfaces[j])
              && (forall z <- c.zones :: |c.zones[z].interfaces| > 0 && c.zones[z].input != None && c.zones[z].forward != None)
              && (forall f <- c.forwardings :: f.src in c.zones && f.dest in c.zones)
              && (forall r <- c.rules :: ValidRule(r, c.zones))
              && (forall pf <- c.portForwards :: ValidPortForward(pf))
  {
    assert "" !in c.zones ==> forall f <- c.forwardings ::
             (ValidForwarding(f, c.zones) <==> f.src in c.zones && f.dest in c.zones);
    assert forall z <- c.zones ::
        ValidZone(c.zones[z]) <==> |c.zones[z].interfaces| > 0 && c.zones[z].input != None && c.zones[z].forward != None;
  }

  ghost function InterfacesOf(zones: map<string, Zone>, names: set<string>): set<string> {
    set z, i | z in names && z in zones && 0 <= i < |zones[z].interfaces| :: zones[z].interfaces[i]
  }

  // One zone's interfaces against those already seen; the count of errors found.
  method CheckInterfaces(interfaces: seq<string>, zone: string, seen: map<string, string>)
    returns (errors: nat, seen': map<string, string>)
    ensures seen'.Keys == seen.Keys + Elems(interfaces)
    ensures errors == 0 <==> NoDup(interfaces) && Elems(interfaces) !! seen.Keys
  {
    errors, seen' := 0, seen;
    for k := 0 to |interfaces|
      invariant seen'.Keys == seen.Keys + Elems(interfaces[..k])
      invariant errors == 0 <==> NoDup(interfaces[..k]) && Elems(interfaces[..k]) !! seen.Keys
    {
      var iface := interfaces[k];
      assert interfaces[..k + 1] == interfaces[..k] + [iface];
      if iface in seen' { errors := errors + 1; }
      seen' := seen'[iface := zone];
    }
    assert interfaces[..|interfaces|] == interfaces;
  }

  // The zones visited so far, as the validator sees them: an unnamed zone is reported and skipped.
  ghost predicate ZonesFine(zones: map<string, Zone>, done: set<string>) {
    && "" !in done
    && (forall z | z in done && z in zones :: ValidZone(zones[z]) && NoDup(zones[z].interfaces))
    && (forall a, b | a in done && b in done && a in zones && b in zones && a != b ::
          Elems(zones[a].interfaces) !! Elems(zones[b].interfaces))
  }

  lemma ZonesFineStep(zones: map<string, Zone>, done: set<string>, z: string, seen: set<string>)
    requires z in zones && z !in done && done <= zones.Keys && z != ""
    requires "" !in done ==> seen == InterfacesOf(zones, done)
    ensures ZonesFine(zones, done + {z}) <==>
            ZonesFine(zones, done) && ValidZone(zones[z]) && NoDup(zones[z].interfaces) &&
            ("" !in done ==> Elems(zones[z].interfaces) !! seen)
  {
    if "" !in done {
      forall a | a in done ensures Elems(zones[a].interfaces) <= seen {
        forall x | x in Elems(zones[a].interfaces) ensures x in seen {
          var i :| 0 <= i < |zones[a].interfaces| && zones[a].interfaces[i] == x;
        }
      }
      if ZonesFine(zones, done + {z}) {
        forall x | x in seen ensures x !in Elems(zones[z].interfaces) {
          var a, i :| a in done && 0 <= i < |zones[a].interfaces| && zones[a].interfaces[i] == x;
          assert x in Elems(zones[a].interfaces);
        }
      }
    }
  }

  lemma FineIsUnique(zones: map<string, Zone>)
    ensures ZonesFine(zones, zones.Keys) <==>
            "" !in zones && UniqueInterfaces(zones) && forall z <- zones :: ValidZone(zones[z])
  {
    if ZonesFine(zones, zones.Keys) {
      forall a, i, b, j | a in zones && b in zones && 0 <= i < |zones[a].interfaces| && 0 <= j < |zones[b].interfaces|
                          && zones[a].interfaces[i] == zones[b].interfaces[j]
        ensures a == b && i == j
      {
        assert zones[a].interfaces[i] in Elems(zones[a].interfaces);
        assert zones[b].interfaces[j] in Elems(zones[b].interfaces);
      }
    }
    if UniqueInterfaces(zones) {
      forall a, b, x | a in zones && b in zones && a != b && x in Elems(zones[a].interfaces)
        ensures x !in Elems(zones[b].interfaces)
      {
        var i :| 0 <= i < |zones[a].interfaces| && zones[a].interfaces[i] == x;
        assert forall j | 0 <= j < |zones[b].interfaces| :: zones[b].interfaces[j] != zones[a].interfaces[i];
      }
    }
  }

  // The validator accepts exactly the valid configurations, in whatever order it visits the zones.
  method Validate(c: Config) returns (errors: nat)
    ensures errors == 0 <==> ValidConfig(c)
  {
    errors := if c.zones == map[] then 1 else 0;
    var interfaceToZone: map<string, string> := map[];
    ghost var done: set<string> := {};
    var todo := c.zones.Keys;
    while todo != {}
      invariant todo <= c.zones.Keys && done == c.zones.Keys - todo
      invariant errors == 0 <==> c.zones != map[] && ZonesFine(c.zones, done)
      invariant "" !in done ==> interfaceToZone.Keys == InterfacesOf(c.zones, done)
      decreases todo
    {
      var z :| z in todo;
      todo := todo - {z};
      if z == "" {
        errors := errors + 1;
      } else {
        ZonesFineStep(c.zones, done, z, interfaceToZone.Keys);
        var clashes, seen := CheckInterfaces(c.zones[z].interfaces, z, interfaceToZone);
        interfaceToZone := seen;
        errors := errors + clashes + if ValidZone(c.zones[z]) then 0 else 1;
        InterfacesOfStep(c.zones, done, z);
      }
      done := done + {z};
    }
    assert done == c.zones.Keys;
    FineIsUnique(c.zones);
    for i := 0 to |c.forwardings|
      invariant errors == 0 <==>
                c.zones != map[] && ZonesFine(c.zones, c.zones.Keys) &&
                forall f <- c.forwardings[..i] :: ValidForwarding(f, c.zones)
    {
      assert c.forwardings[..i + 1] == c.forwardings[..i] + [c.forwardings[i]];
      if !ValidForwarding(c.forwardings[i], c.zones) { errors := errors + 1; }
    }
    assert c.forwardings[..|c.forwardings|] == c.forwardings;
    for i := 0 to |c.rules|
      invariant errors == 0 <==>
                c.zones != map[] && ZonesFine(c.zones, c.zones.Keys) &&
                (forall f <- c.forwardings :: ValidForwarding(f, c.zones)) &&
                forall r <- c.rules[..i] :: ValidRule(r, c.zones)
    {
      assert c.rules[..i + 1] == c.rules[..i] + [c.rules[i]];
      if !ValidRule(c.rules[i], c.zones) { errors := errors + 1; }
    }
    assert c.rules[..|c.rules|] == c.rules;
    for i := 0 to |c.portForwards|
      invariant errors == 0 <==>
                c.zones != map[] && ZonesFine(c.zones, c.zones.Keys) &&
                (forall f <- c.forwardings :: ValidForwarding(f, c.zones)) &&
                (forall r <- c.rules :: ValidRule(r, c.zones)) &&
                forall pf <- c.portForwards[..i] :: ValidPortForward(pf)
    {
      assert c.portForwards[..i + 1] == c.portForwards[..i] + [c.portForwards[i]];
      if !ValidPortForward(c.portForwards[i]) { errors := errors + 1; }
    }
    assert c.portForwards[..|c.portForwards|] == c.portForwards;
  }

  lemma InterfacesOfStep(zones: map<string, Zone>, done: set<string>, z: string)
    requires z in zones
    ensures InterfacesOf(zones, done + {z}) == InterfacesOf(zones, done) + Elems(zones[z].interfaces)
  {
    forall x | x in Elems(zones[z].interfaces) ensures x in InterfacesOf(zones, done + {z}) {
      var i :| 0 <= i < |zones[z].interfaces| && zones[z].interfaces[i] == x;
    }
  }
}
