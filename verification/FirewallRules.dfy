// From configuration to rules (plugins/core/firewall/firewall_rules.go) and what every chain of the
// finished table holds (plugins/core/firewall/firewall.go).
module FirewallRules {
  import opened Basics
  import opened FirewallConfig
  import opened Nftables

  const NFLOG_DROPS := 100
  const NFLOG_ACCEPTS := 101

  predicate ShouldLog(policy: Policy, l: LoggingConfig) {
    l.enabled && if policy.Accept? then l.logAccepts else l.logDrops
  }

  function NflogGroup(policy: Policy): nat {
    if policy.Accept? then NFLOG_ACCEPTS else NFLOG_DROPS
  }

  function LogFor(policy: Policy, l: LoggingConfig): Option<nat> {
    if ShouldLog(policy, l) then Some(NflogGroup(policy)) else None
  }

  function PortMatch(ports: Ports, m: Match): seq<Match> {
    if ports.AnyPort? then [] else [m]
  }

  function ProtoMatch(proto: Option<string>): seq<Match> {
    if proto.Some? then [L4Proto(proto.value)] else []
  }

  // Addresses are not looked at; an established rule looks at nothing but the connection state.
  function GenerateCustomRule(r: Rule, l: LoggingConfig): NftRule
    requires r.target.Some?
  {
    var matches :=
      if IsEstablishedRule(r.name) then [CtEstablished]
      else ProtoMatch(r.proto) + PortMatch(r.destPort, DPort(r.destPort)) + PortMatch(r.srcPort, SPort(r.srcPort));
    NftRule(matches, LogFor(r.target.value, l), Verdict(r.target.value))
  }

  function GeneratePortForwardFilterRule(pf: PortForward, l: LoggingConfig): NftRule {
    var ports := if pf.destPort.PortRange? then pf.destPort else pf.srcDPort;
    NftRule([DAddr(pf.destIP)] + ProtoMatch(pf.proto) + PortMatch(ports, DPort(ports)), LogFor(Accept, l), Verdict(Accept))
  }

  function GeneratePortForwardDNATRule(pf: PortForward): NftRule {
    var port := if pf.destPort.PortRange? && pf.destPort != pf.srcDPort then pf.destPort else AnyPort;
    NftRule(ProtoMatch(pf.proto) + PortMatch(pf.srcDPort, DPort(pf.srcDPort)), None, Dnat(pf.destIP, port))
  }

  function PolicyRule(policy: Policy, l: LoggingConfig): NftRule {
    NftRule([], LogFor(policy, l), Verdict(policy))
  }

  const ESTABLISHED_RULE := NftRule([CtEstablished], None, Verdict(Accept))

  // ----- the chains -----

  function JumpsOf(interfaces: seq<string>, h: Hook, z: string): (r: seq<NftRule>)
    ensures |r| == |interfaces|
  {
    seq(|interfaces|, i requires 0 <= i < |interfaces| => NftRule([IifName(interfaces[i])], None, Jump(ZoneChain(h, z))))
  }

  function InterfacesIn(zones: map<string, Zone>, z: string): seq<string> {
    if z in zones then zones[z].interfaces else []
  }

  function Jumps(zones: map<string, Zone>, order: seq<string>, h: Hook): seq<NftRule> {
    if order == [] then []
    else
      var z := order[|order| - 1];
      Jumps(zones, order[..|order| - 1], h) + JumpsOf(InterfacesIn(zones, z), h, z)
  }

  predicate Targeted(rules: seq<Rule>) {
    forall r <- rules :: r.target.Some?
  }

  function CustomRules(rules: seq<Rule>, z: string, l: LoggingConfig): seq<NftRule>
    requires Targeted(rules)
  {
    if rules == [] then []
    else
      var r := rules[|rules| - 1];
      CustomRules(rules[..|rules| - 1], z, l) + if r.src == z then [GenerateCustomRule(r, l)] else []
  }

  function AcceptsOf(interfaces: seq<string>, l: LoggingConfig): (r: seq<NftRule>)
    ensures |r| == |interfaces|
  {
    seq(|interfaces|, i requires 0 <= i < |interfaces| => NftRule([IifName(interfaces[i])], LogFor(Accept, l), Verdict(Accept)))
  }

  function ForwardRules(fwds: seq<Forwarding>, zones: map<string, Zone>, z: string, l: LoggingConfig): seq<NftRule> {
    if fwds == [] then []
    else
      var f := fwds[|fwds| - 1];
      ForwardRules(fwds[..|fwds| - 1], zones, z, l) + if f.src == z then AcceptsOf(InterfacesIn(zones, z), l) else []
  }

  function PortForwardFilters(pfs: seq<PortForward>, l: LoggingConfig): seq<NftRule> {
    if pfs == [] then []
    else
      var pf := pfs[|pfs| - 1];
      PortForwardFilters(pfs[..|pfs| - 1], l) + if pf.enabled then [GeneratePortForwardFilterRule(pf, l)] else []
  }

  function Dnats(pfs: seq<PortForward>): seq<NftRule> {
    if pfs == [] then []
    else
      var pf := pfs[|pfs| - 1];
      Dnats(pfs[..|pfs| - 1]) + if pf.enabled then [GeneratePortForwardDNATRule(pf)] else []
  }

  function MasqueradesOf(interfaces: seq<string>): (r: seq<NftRule>)
    ensures |r| == |interfaces|
  {
    seq(|interfaces|, i requires 0 <= i < |interfaces| => NftRule([OifName(interfaces[i])], None, Masquerade))
  }

  function Masquerades(zones: map<string, Zone>, order: seq<string>): seq<NftRule> {
    if order == [] then []
    else
      var z := order[|order| - 1];
      Masquerades(zones, order[..|order| - 1]) + MasqueradesOf(InterfacesIn(zones, z))
  }

  // How far building the table has come: the zones whose chains exist, in order; how many rules,
  // forwardings and port forwards are in; the zones masqueraded, in order, and whether there is a
  // postrouting chain; the zones with a policy.
  datatype Progress = Progress(zones: seq<string>, rules: nat, fwds: nat, masq: seq<string>, natChain: bool, pfs: nat,
                               policies: set<string>)

  ghost predicate Within(c: Config, p: Progress) {
    && p.rules <= |c.rules| && p.fwds <= |c.forwardings| && p.pfs <= |c.portForwards|
    && (forall z <- p.zones :: z in c.zones)
    && (forall z <- p.policies :: z in c.zones && c.zones[z].input.Some? && c.zones[z].forward.Some?)
    && Targeted(c.rules[..p.rules])
    && (Masquerades(c.zones, p.masq) != [] ==> p.natChain)
  }

  function NonEmpty(rules: seq<NftRule>): Option<seq<NftRule>> {
    if rules == [] then None else Some(rules)
  }

  // The content of every chain of the table, None where the chain does not exist.
  ghost function Content(c: Config, p: Progress, ch: Chain): Option<seq<NftRule>>
    requires Within(c, p)
  {
    match ch
    case BaseChain(Input) => NonEmpty(Jumps(c.zones, p.zones, Input))
    case BaseChain(Forward) =>
      Some([ESTABLISHED_RULE] + Jumps(c.zones, p.zones, Forward) + PortForwardFilters(c.portForwards[..p.pfs], c.logging))
    case BaseChain(Output) => None
    case ZoneChain(h, z) =>
      if z !in p.zones then None
      else
        (match h
        case Input =>
          Some(CustomRules(c.rules[..p.rules], z, c.logging) +
               if z in p.policies then [PolicyRule(c.zones[z].input.value, c.logging)] else [])
        case Forward =>
          Some(ForwardRules(c.forwardings[..p.fwds], c.zones, z, c.logging) +
               if z in p.policies then [PolicyRule(c.zones[z].forward.value, c.logging)] else [])
        case Output => Some([]))
    case Prerouting => NonEmpty(Dnats(c.portForwards[..p.pfs]))
    case Postrouting => if p.natChain then Some(Masquerades(c.zones, p.masq)) else None
  }

  ghost function Look(t: Table, ch: Chain): Option<seq<NftRule>> {
    if ch in t then Some(t[ch]) else None
  }

  ghost predicate Built(t: Table, c: Config, p: Progress) {
    Within(c, p) && forall ch :: Look(t, ch) == Content(c, p, ch)
  }

  // What nft can build: every rule names an existing zone and every policy is a policy.
  ghost predicate Compilable(c: Config) {
    && (forall z <- c.zones :: c.zones[z].input.Some? && c.zones[z].forward.Some?)
    && (forall r <- c.rules :: r.src in c.zones && r.target.Some?)
  }

  ghost predicate Orders(c: Config, zoneOrder: seq<string>, masqOrder: seq<string>) {
    Lists(zoneOrder, c.zones.Keys) && Lists(masqOrder, set z | z in c.zones && c.zones[z].masquerade)
  }

  function Complete(c: Config, zoneOrder: seq<string>, masqOrder: seq<string>, natChain: bool): Progress {
    Progress(zoneOrder, |c.rules|, |c.forwardings|, masqOrder, natChain, |c.portForwards|, c.zones.Keys)
  }

  // The table is a finished compilation of the configuration, for some order of the zones.
  ghost predicate IsCompilation(t: Table, c: Config) {
    exists zo, mo, nc :: Orders(c, zo, mo) && Built(t, c, Complete(c, zo, mo, nc))
  }
}
