/** The privileged helper: which utun relays and port redirections are active, and the packet
    filter anchor that is rebuilt from them on every change. */
module PfHelper {
  import opened Networks
  import Subnets
  import opened VmConf
  import opened Wrappers

  datatype UtunSetup = UtunSetup(egressIface: string, ipv4Cidr: string)

  datatype RdrRule = RdrRule(proto: string, hostPort: nat, vmIp: string, vmPort: nat)

  /** One line of the anchor. */
  datatype Rule =
    | Nat(egress: string, cidr: string)
    | Rdr(iface: string, local: bool, rdr: RdrRule)   // local: only to 127.0.0.1
    | Pass(cidr: string)

  type Utuns = map<string, UtunSetup>

  /** Which of the commands that a request runs succeed. */
  datatype Luck = Luck(ifconfig: bool, sysctl4: bool, sysctl6: bool, route: bool, pfctl: bool)

  // ---- The redirections as a map ---------------------------------------------------------

  type Key = (string, nat)
  type Target = (string, nat)

  function KeyOf(r: RdrRule): Key {
    (r.proto, r.hostPort)
  }

  function TargetOf(r: RdrRule): Target {
    (r.vmIp, r.vmPort)
  }

  /** The last writer of a key wins. */
  function MapOf(rules: seq<RdrRule>): map<Key, Target> {
    if rules == [] then map[]
    else
      var n := |rules| - 1;
      MapOf(rules[..n])[KeyOf(rules[n]) := TargetOf(rules[n])]
  }

  predicate DistinctKeys(rules: seq<RdrRule>) {
    forall i, j :: 0 <= i < j < |rules| ==> KeyOf(rules[i]) != KeyOf(rules[j])
  }

  function Without(rules: seq<RdrRule>, key: Key): (kept: seq<RdrRule>)
    ensures forall r :: r in kept <==> r in rules && KeyOf(r) != key
  {
    if rules == [] then []
    else
      var n := |rules| - 1;
      Without(rules[..n], key) + if KeyOf(rules[n]) == key then [] else [rules[n]]
  }

  lemma NoRules()
    ensures MapOf([]) == map[] && DistinctKeys([])
  {
  }

  lemma MapOfSnoc(rules: seq<RdrRule>, r: RdrRule)
    ensures MapOf(rules + [r]) == MapOf(rules)[KeyOf(r) := TargetOf(r)]
  {
    assert (rules + [r])[..|rules|] == rules;
  }

  lemma DistinctSnoc(rules: seq<RdrRule>, r: RdrRule)
    requires DistinctKeys(rules) && forall x <- rules :: KeyOf(x) != KeyOf(r)
    ensures DistinctKeys(rules + [r])
  {
    hide KeyOf;
  }

  lemma UpdateAndRemove(m: map<Key, Target>, k: Key, t: Target, key: Key)
    ensures k != key ==> (m - {key})[k := t] == m[k := t] - {key}
    ensures k == key ==> m - {key} == m[k := t] - {key}
  {
  }

  lemma {:induction false} WithoutIsRemoval(rules: seq<RdrRule>, key: Key)
    ensures MapOf(Without(rules, key)) == MapOf(rules) - {key}
  {
    hide KeyOf, TargetOf;
    if rules != [] {
      var n := |rules| - 1;
      var kept := Without(rules[..n], key);
      WithoutIsRemoval(rules[..n], key);
      UpdateAndRemove(MapOf(rules[..n]), KeyOf(rules[n]), TargetOf(rules[n]), key);
      MapOfSnoc(kept, rules[n]);
      assert kept + [] == kept;
    }
  }

  lemma {:induction false} WithoutIsDistinct(rules: seq<RdrRule>, key: Key)
    requires DistinctKeys(rules)
    ensures DistinctKeys(Without(rules, key))
  {
    if rules != [] {
      var n := |rules| - 1;
      WithoutIsDistinct(rules[..n], key);
      var kept := Without(rules[..n], key);
      assert kept + [] == kept;
      assert forall x <- rules[..n] :: KeyOf(x) != KeyOf(rules[n]);
      hide DistinctKeys, KeyOf;
      if KeyOf(rules[n]) != key {
        DistinctSnoc(kept, rules[n]);
      }
    }
  }

  lemma AddedIsUpdate(rules: seq<RdrRule>, r: RdrRule)
    requires DistinctKeys(rules)
    ensures var rules' := Without(rules, KeyOf(r)) + [r];
            MapOf(rules') == MapOf(rules)[KeyOf(r) := TargetOf(r)] && DistinctKeys(rules')
  {
    hide DistinctKeys, KeyOf, Without;
    var kept := Without(rules, KeyOf(r));
    WithoutIsRemoval(rules, KeyOf(r));
    WithoutIsDistinct(rules, KeyOf(r));
    MapOfSnoc(kept, r);
    DistinctSnoc(kept, r);
  }

  // ---- The anchor ------------------------------------------------------------------------

  /** Some order in which a hash map gives its keys. */
  ghost predicate Orders(order: seq<string>, utuns: Utuns) {
    && (forall i, j :: 0 <= i < j < |order| ==> order[i] != order[j])
    && (forall k :: k in order <==> k in utuns)
  }

  function NatRules(order: seq<string>, utuns: Utuns): (rs: seq<Rule>)
    requires forall k <- order :: k in utuns
  {
    seq(|order|, i requires 0 <= i < |order| => var s := utuns[order[i]]; Nat(s.egressIface, s.ipv4Cidr))
  }

  function PassRules(order: seq<string>, utuns: Utuns): (rs: seq<Rule>)
    requires forall k <- order :: k in utuns
  {
    seq(|order|, i requires 0 <= i < |order| => Pass(utuns[order[i]].ipv4Cidr))
  }

  function RdrPair(r: RdrRule, egress: Option<string>): seq<Rule> {
    [Rdr("lo0", true, r)] + match egress case None => [] case Some(e) => [Rdr(e, false, r)]
  }

  function RdrRules(rules: seq<RdrRule>, egress: Option<string>): seq<Rule> {
    if rules == [] then []
    else RdrRules(rules[..|rules| - 1], egress) + RdrPair(rules[|rules| - 1], egress)
  }

  function AnyEgress(order: seq<string>, utuns: Utuns): Option<string>
    requires forall k <- order :: k in utuns
  {
    if order == [] then None else Some(utuns[order[0]].egressIface)
  }

  ghost function Render(order: seq<string>, utuns: Utuns, rules: seq<RdrRule>): seq<Rule>
    requires Orders(order, utuns)
  {
    NatRules(order, utuns) + RdrRules(rules, AnyEgress(order, utuns)) + PassRules(order, utuns)
  }

  ghost predicate Loaded(anchor: seq<Rule>, utuns: Utuns, rules: seq<RdrRule>) {
    exists order :: Orders(order, utuns) && anchor == Render(order, utuns, rules)
  }

  lemma RenderLoads(order: seq<string>, utuns: Utuns, rules: seq<RdrRule>, anchor: seq<Rule>)
    requires Orders(order, utuns) && forall k <- order :: k in utuns
    requires anchor == NatRules(order, utuns) + RdrRules(rules, AnyEgress(order, utuns)) + PassRules(order, utuns)
    ensures Loaded(anchor, utuns, rules)
  {
  }

  lemma RdrRulesNext(rules: seq<RdrRule>, i: nat, egress: Option<string>)
    requires i < |rules|
    ensures RdrRules(rules[..i + 1], egress)
         == RdrRules(rules[..i], egress) + [Rdr("lo0", true, rules[i])]
            + if egress.Some? then [Rdr(egress.value, false, rules[i])] else []
  {
    assert rules[..i + 1][..i] == rules[..i];
  }

  /** At a relay's place in the order stand its NAT and its pass rule. */
  lemma RulesByPlace(order: seq<string>, utuns: Utuns)
    requires forall k <- order :: k in utuns
    ensures |NatRules(order, utuns)| == |PassRules(order, utuns)| == |order|
    ensures forall i :: 0 <= i < |order| ==>
              && NatRules(order, utuns)[i] == Nat(utuns[order[i]].egressIface, utuns[order[i]].ipv4Cidr)
              && PassRules(order, utuns)[i] == Pass(utuns[order[i]].ipv4Cidr)
    ensures forall r <- NatRules(order, utuns) :: r.Nat?
    ensures forall r <- PassRules(order, utuns) :: r.Pass?
  {
  }

  lemma TakeNext(rs: seq<Rule>, i: nat)
    requires i < |rs|
    ensures rs[..i + 1] == rs[..i] + [rs[i]]
  {
  }

  lemma NothingLoads()
    ensures Loaded([], map[], [])
  {
    var none: Utuns := map[];
    assert Orders([], none) && Render([], none, []) == [];
  }

  lemma RdrRulesSome(rules: seq<RdrRule>, egress: Option<string>)
    ensures RdrRules(rules, egress) == [] <==> rules == []
  {
  }

  /** Only a state without relays and redirections has nothing to load. */
  lemma NothingToLoad(anchor: seq<Rule>, utuns: Utuns, rules: seq<RdrRule>)
    requires Loaded(anchor, utuns, rules)
    ensures anchor == [] <==> utuns == map[] && rules == []
  {
    var order :| Orders(order, utuns) && anchor == Render(order, utuns, rules);
    InOrder(order, utuns);
    RulesByPlace(order, utuns);
    RdrRulesSome(rules, AnyEgress(order, utuns));
    assert order == [] <==> utuns == map[] by {
      if order == [] {
        assert utuns.Keys == {};
      } else {
        assert order[0] in utuns;
      }
    }
    hide NatRules, RdrRules, PassRules, AnyEgress;
  }

  lemma NoRdrRules(egress: Option<string>)
    ensures RdrRules([], egress) == []
  {
  }

  lemma InOrder(order: seq<string>, utuns: Utuns)
    requires Orders(order, utuns)
    ensures forall k <- order :: k in utuns
    ensures forall i :: 0 <= i < |order| ==> order[i] in utuns
  {
    assert forall i :: 0 <= i < |order| ==> order[i] in order;
  }

  lemma TakeAll(rs: seq<Rule>)
    ensures rs[..|rs|] == rs
  {
  }

  method Iterate(utuns: Utuns) returns (order: seq<string>)
    ensures Orders(order, utuns)
  {
    order := [];
    var rest := utuns.Keys;
    while rest != {}
      invariant forall i, j :: 0 <= i < j < |order| ==> order[i] != order[j]
      invariant forall k :: k in order <==> k in utuns.Keys - rest
      invariant rest <= utuns.Keys
      decreases |rest|
    {
      var k :| k in rest;
      assert forall i :: 0 <= i < |order| ==> order[i] in order;
      order := order + [k];
      rest := rest - {k};
    }
  }

  // ---- The daemon ------------------------------------------------------------------------

  datatype World = World(utuns: Utuns, rdr: map<Key, Target>, aliases: seq<(string, string)>)

  function Others(aliases: seq<(string, string)>, iface: string): seq<(string, string)> {
    if aliases == [] then []
    else (if aliases[0].0 == iface then [] else [aliases[0]]) + Others(aliases[1..], iface)
  }

  datatype Request =
    | SetupUtun(iface: string, cidr: string, egress: string, luck: Luck)
    | TeardownUtun(iface: string, luck: Luck)
    | AddRdr(rule: RdrRule, luck: Luck)
    | RemoveRdr(proto: string, hostPort: nat, luck: Luck)
    | AssignUtunAlias(iface: string, addr: string, valid: bool, luck: Luck)

  predicate IsSafeIface(alphanumeric: char -> bool, s: string) {
    s != "" && forall c <- s :: alphanumeric(c) || c == '-' || c == '_'
  }

  /** What a request does, on maps. */
  function Serve(alphanumeric: char -> bool, w: World, q: Request): World {
    match q
    case SetupUtun(iface, cidr, egress, luck) =>
      if IsSafeIface(alphanumeric, iface) && IsSafeIface(alphanumeric, egress)
         && luck.ifconfig && luck.sysctl4 && luck.sysctl6
      then w.(utuns := w.utuns[iface := UtunSetup(egress, cidr)]) else w
    case TeardownUtun(iface, _) =>
      var utuns := w.utuns - {iface};
      World(utuns, if utuns == map[] then map[] else w.rdr, Others(w.aliases, iface))
    case AddRdr(r, _) =>
      if r.proto == "tcp" || r.proto == "udp" then w.(rdr := w.rdr[KeyOf(r) := TargetOf(r)]) else w
    case RemoveRdr(proto, port, _) => w.(rdr := w.rdr - {(proto, port)})
    case AssignUtunAlias(iface, addr, valid, luck) =>
      if IsSafeIface(alphanumeric, iface) && valid && luck.route then w.(aliases := w.aliases + [(iface, addr)]) else w
  }

  function ServeAll(alphanumeric: char -> bool, qs: seq<Request>): World {
    if qs == [] then World(map[], map[], [])
    else Serve(alphanumeric, ServeAll(alphanumeric, qs[..|qs| - 1]), qs[|qs| - 1])
  }

  lemma ServeNext(alphanumeric: char -> bool, qs: seq<Request>, i: nat)
    requires i < |qs|
    ensures qs[..i + 1] == qs[..i] + [qs[i]]
    ensures ServeAll(alphanumeric, qs[..i + 1]) == Serve(alphanumeric, ServeAll(alphanumeric, qs[..i]), qs[i])
  {
    hide Serve;
    assert qs[..i + 1][..i] == qs[..i];
  }

  class DaemonState {
    const alphanumeric: char -> bool
    var activeUtuns: Utuns
    var rdrRules: seq<RdrRule>
    var ipv6Aliases: seq<(string, string)>
    // The kernel's side.
    var anchor: seq<Rule>
    var forwarding4: bool
    var forwarding6: bool

    /** No key twice, and packets are forwarded whenever a relay is active. */
    ghost predicate Valid()
      reads this
    {
      DistinctKeys(rdrRules) && (activeUtuns != map[] ==> forwarding4 && forwarding6)
    }

    ghost function Abstract(): World
      reads this
    {
      World(activeUtuns, MapOf(rdrRules), ipv6Aliases)
    }

    /** The kernel has what the state says. */
    ghost predicate InSync()
      reads this
    {
      Loaded(anchor, activeUtuns, rdrRules)
    }

    /** Packets are forwarded exactly while a relay is active. */
    ghost predicate Forwards()
      reads this
    {
      forwarding4 == forwarding6 == (activeUtuns != map[])
    }

    constructor (alphanumeric: char -> bool)
      ensures Forwards() && Valid() && InSync()
      ensures Abstract() == World(map[], map[], []) && this.alphanumeric == alphanumeric
    {
      this.alphanumeric := alphanumeric;
      activeUtuns, rdrRules, ipv6Aliases := map[], [], [];
      anchor, forwarding4, forwarding6 := [], false, false;
      new;
      NothingLoads();
    }

    /** Rules are written translation first. */
    method ComposeRules() returns (rules: seq<Rule>)
      ensures Loaded(rules, activeUtuns, rdrRules)
    {
      hide Loaded, Orders, Render, RdrPair, NatRules, RdrRules, PassRules;
      var order := Iterate(activeUtuns);
      InOrder(order, activeUtuns);
      RulesByPlace(order, activeUtuns);
      ghost var nats, passes := NatRules(order, activeUtuns), PassRules(order, activeUtuns);
      rules := [];
      for i := 0 to |order|
        invariant rules == nats[..i]
      {
        TakeNext(nats, i);
        var setup := activeUtuns[order[i]];
        rules := rules + [Nat(setup.egressIface, setup.ipv4Cidr)];
      }
      TakeAll(nats);
      var anyEgress := if order == [] then None else Some(activeUtuns[order[0]].egressIface);
      NoRdrRules(anyEgress);
      for i := 0 to |rdrRules|
        invariant rules == nats + RdrRules(rdrRules[..i], anyEgress)
      {
        RdrRulesNext(rdrRules, i, anyEgress);
        rules := rules + [Rdr("lo0", true, rdrRules[i])];
        if anyEgress.Some? {
          rules := rules + [Rdr(anyEgress.value, false, rdrRules[i])];
        }
      }
      assert rdrRules[..|rdrRules|] == rdrRules;
      ghost var translations := rules;
      for i := 0 to |order|
        invariant rules == translations + passes[..i]
      {
        TakeNext(passes, i);
        rules := rules + [Pass(activeUtuns[order[i]].ipv4Cidr)];
      }
      TakeAll(passes);
      RenderLoads(order, activeUtuns, rdrRules, rules);
    }

    /** An empty rule set is a flush. */
    method ReloadNatAnchor(pfctl: bool) returns (ok: bool)
      modifies this`anchor
      ensures pfctl ==> InSync()
      ensures !pfctl ==> anchor == old(anchor)
      ensures ok <==> pfctl || (activeUtuns == map[] && rdrRules == [])
    {
      hide Loaded;
      var rules := ComposeRules();
      NothingToLoad(rules, activeUtuns, rdrRules);
      if rules == [] {
        if pfctl {
          anchor := [];
        }
        return true;
      }
      if !pfctl {
        return false;
      }
      anchor := rules;
      return true;
    }

    method HandleSetupUtun(iface: string, cidr: string, egress: string, luck: Luck) returns (ok: bool)
      requires Valid()
      modifies this
      ensures Valid() && Abstract() == Serve(alphanumeric, old(Abstract()), SetupUtun(iface, cidr, egress, luck))
      ensures luck.pfctl && old(InSync()) ==> InSync()
      ensures luck.sysctl4 && luck.sysctl6 && old(Forwards()) ==> Forwards()
      ensures var safe := IsSafeIface(alphanumeric, iface) && IsSafeIface(alphanumeric, egress) && luck.ifconfig;
              && (ok <==> safe && luck.sysctl4 && luck.sysctl6 && luck.pfctl)
              && forwarding4 == (old(forwarding4) || (safe && luck.sysctl4))
              && forwarding6 == (old(forwarding6) || (safe && luck.sysctl4 && luck.sysctl6))
    {
      if !IsSafeIface(alphanumeric, iface) || !IsSafeIface(alphanumeric, egress) {
        return false;
      }
      if !luck.ifconfig {
        return false;
      }
      if !luck.sysctl4 {
        return false;
      }
      forwarding4 := true;
      if !luck.sysctl6 {
        return false;
      }
      forwarding6 := true;
      activeUtuns := activeUtuns[iface := UtunSetup(egress, cidr)];
      assert iface in activeUtuns;
      ok := ReloadNatAnchor(luck.pfctl);
    }

    method HandleTeardownUtun(iface: string, luck: Luck)
      requires Valid()
      modifies this
      ensures Valid() && Abstract() == Serve(alphanumeric, old(Abstract()), TeardownUtun(iface, luck))
      ensures luck.pfctl && old(InSync()) ==> InSync()
      ensures luck.sysctl4 && luck.sysctl6 && old(Forwards()) ==> Forwards()
      ensures forwarding4 == (old(forwarding4) && !(activeUtuns == map[] && luck.sysctl4))
      ensures forwarding6 == (old(forwarding6) && !(activeUtuns == map[] && luck.sysctl6))
    {
      hide Loaded, Others, DistinctKeys;
      NoRules();
      activeUtuns := activeUtuns - {iface};
      if activeUtuns == map[] {
        if luck.pfctl {
          anchor := [];
        }
        if luck.sysctl4 {
          forwarding4 := false;
        }
        if luck.sysctl6 {
          forwarding6 := false;
        }
        rdrRules := [];
        NothingLoads();
      } else {
        var _ := ReloadNatAnchor(luck.pfctl);
      }
      ipv6Aliases := Others(ipv6Aliases, iface);
    }

    method HandleAddRdr(r: RdrRule, luck: Luck) returns (ok: bool)
      requires Valid()
      modifies this`rdrRules, this`anchor
      ensures ok <==> (r.proto == "tcp" || r.proto == "udp") && luck.pfctl
      ensures Valid() && Abstract() == Serve(alphanumeric, old(Abstract()), AddRdr(r, luck))
      ensures luck.pfctl && old(InSync()) ==> InSync()
    {
      if r.proto != "tcp" && r.proto != "udp" {
        return false;
      }
      hide KeyOf, DistinctKeys, MapOf, Loaded, Without;
      AddedIsUpdate(rdrRules, r);
      rdrRules := Without(rdrRules, KeyOf(r));
      rdrRules := rdrRules + [r];
      ok := ReloadNatAnchor(luck.pfctl);
    }

    method HandleRemoveRdr(proto: string, hostPort: nat, luck: Luck) returns (ok: bool)
      requires Valid()
      modifies this`rdrRules, this`anchor
      ensures ok <==> luck.pfctl || (activeUtuns == map[] && rdrRules == [])
      ensures Valid() && Abstract() == Serve(alphanumeric, old(Abstract()), RemoveRdr(proto, hostPort, luck))
      ensures luck.pfctl && old(InSync()) ==> InSync()
    {
      hide KeyOf, DistinctKeys, MapOf, Loaded, Without;
      WithoutIsRemoval(rdrRules, (proto, hostPort));
      WithoutIsDistinct(rdrRules, (proto, hostPort));
      rdrRules := Without(rdrRules, (proto, hostPort));
      ok := ReloadNatAnchor(luck.pfctl);
    }

    method HandleAssignUtunAlias(iface: string, addr: string, valid: bool, luck: Luck) returns (ok: bool)
      requires Valid()
      modifies this`ipv6Aliases
      ensures ok <==> IsSafeIface(alphanumeric, iface) && valid && luck.route
      ensures Valid() && Abstract() == Serve(alphanumeric, old(Abstract()), AssignUtunAlias(iface, addr, valid, luck))
      ensures old(InSync()) ==> InSync()
    {
      if !IsSafeIface(alphanumeric, iface) {
        return false;
      }
      if !valid {
        return false;
      }
      if !luck.route {
        return false;
      }
      ipv6Aliases := ipv6Aliases + [(iface, addr)];
      return true;
    }

    method HandleClient(q: Request)
      requires Valid()
      modifies this
      ensures Valid() && Abstract() == Serve(alphanumeric, old(Abstract()), q)
      ensures q.luck.pfctl && old(InSync()) ==> InSync()
      ensures q.luck.sysctl4 && q.luck.sysctl6 && old(Forwards()) ==> Forwards()
    {
      hide Loaded, DistinctKeys;
      match q {
        case SetupUtun(iface, cidr, egress, luck) => var _ := HandleSetupUtun(iface, cidr, egress, luck);
        case TeardownUtun(iface, luck) => HandleTeardownUtun(iface, luck);
        case AddRdr(r, luck) => var _ := HandleAddRdr(r, luck);
        case RemoveRdr(proto, port, luck) => var _ := HandleRemoveRdr(proto, port, luck);
        case AssignUtunAlias(iface, addr, valid, luck) => var _ := HandleAssignUtunAlias(iface, addr, valid, luck);
      }
    }

    /** Any run of requests refines the maps; with pfctl succeeding the kernel is in step with them
        after each, and with sysctl succeeding packets are forwarded exactly while a relay is active. */
    method Run(qs: seq<Request>)
      requires Forwards() && Valid() && InSync() && Abstract() == World(map[], map[], [])
      modifies this
      ensures Valid() && Abstract() == ServeAll(alphanumeric, qs)
      ensures (forall q <- qs :: q.luck.pfctl) ==> InSync()
      ensures (forall q <- qs :: q.luck.sysctl4 && q.luck.sysctl6) ==> Forwards()
    {
      for i := 0 to |qs|
        invariant Valid() && Abstract() == ServeAll(alphanumeric, qs[..i])
        invariant (forall q <- qs[..i] :: q.luck.pfctl) ==> InSync()
        invariant (forall q <- qs[..i] :: q.luck.sysctl4 && q.luck.sysctl6) ==> Forwards()
      {
        hide Loaded, Serve, ServeAll, DistinctKeys, MapOf;
        ServeNext(alphanumeric, qs, i);
        HandleClient(qs[i]);
      }
      assert qs[..|qs|] == qs;
    }
  }

  // ---- What a loaded anchor does ---------------------------------------------------------

  function NatOf(s: UtunSetup): Rule {
    Nat(s.egressIface, s.ipv4Cidr)
  }

  predicate IsTranslation(r: Rule) {
    r.Nat? || r.Rdr?
  }

  lemma {:induction false} RdrRulesAreRdr(rules: seq<RdrRule>, egress: Option<string>)
    ensures forall r <- RdrRules(rules, egress) :: r.Rdr?
  {
    if rules != [] {
      RdrRulesAreRdr(rules[..|rules| - 1], egress);
    }
  }

  /** All translation rules come before all filter rules: one NAT rule for every active relay,
      the redirections, then one pass rule for every active relay. */
  lemma AnchorSections(order: seq<string>, utuns: Utuns, rules: seq<RdrRule>)
    requires Orders(order, utuns)
    ensures var anchor, n := Render(order, utuns, rules), |utuns|;
            var filters := |anchor| - n;
            && n <= filters && anchor[..n] == NatRules(order, utuns) && anchor[filters..] == PassRules(order, utuns)
            && (forall i :: 0 <= i < |anchor| ==> (IsTranslation(anchor[i]) <==> i < filters))
            && (forall i :: 0 <= i < filters ==> (anchor[i].Nat? <==> i < n))
  {
    hide Render, RdrRules, Orders, NatRules, PassRules, AnyEgress, IsTranslation;
    OrderLength(order, utuns);
    var nats, rdrs, passes := Sections(order, utuns, rules);
    SectionKinds(nats, rdrs, passes);
  }

  lemma Sections(order: seq<string>, utuns: Utuns, rules: seq<RdrRule>)
    returns (nats: seq<Rule>, rdrs: seq<Rule>, passes: seq<Rule>)
    requires Orders(order, utuns)
    ensures Render(order, utuns, rules) == nats + rdrs + passes
    ensures nats == NatRules(order, utuns) && passes == PassRules(order, utuns)
    ensures rdrs == RdrRules(rules, AnyEgress(order, utuns))
    ensures |nats| == |passes| == |order|
    ensures (forall r <- nats :: r.Nat?) && (forall r <- rdrs :: r.Rdr?) && forall r <- passes :: r.Pass?
    ensures forall i :: 0 <= i < |order| ==> order[i] in utuns && nats[i] == NatOf(utuns[order[i]])
  {
    nats, rdrs, passes := NatRules(order, utuns), RdrRules(rules, AnyEgress(order, utuns)), PassRules(order, utuns);
    RulesByPlace(order, utuns);
    RdrRulesAreRdr(rules, AnyEgress(order, utuns));
    assert forall i :: 0 <= i < |order| ==> order[i] in order;
    hide RdrRules, NatRules, PassRules, AnyEgress;
  }

  lemma SectionKinds(nats: seq<Rule>, rdrs: seq<Rule>, passes: seq<Rule>)
    requires (forall r <- nats :: r.Nat?) && (forall r <- rdrs :: r.Rdr?) && forall r <- passes :: r.Pass?
    ensures var all, n, k := nats + rdrs + passes, |nats|, |nats| + |rdrs|;
            && (forall i :: 0 <= i < |all| ==> (IsTranslation(all[i]) <==> i < k))
            && (forall i :: 0 <= i < k ==> (all[i].Nat? <==> i < n))
            && all[..n] == nats && all[k..] == passes
  {
    var all, n, k := nats + rdrs + passes, |nats|, |nats| + |rdrs|;
    SectionAt(nats, rdrs, passes);
    forall i | 0 <= i < |all|
      ensures IsTranslation(all[i]) <==> i < k
      ensures i < k ==> (all[i].Nat? <==> i < n)
    {
      assert i < n ==> all[i] in nats;
      assert n <= i < k ==> all[i] in rdrs;
      assert k <= i ==> all[i] in passes;
    }
  }

  lemma SectionAt(a: seq<Rule>, b: seq<Rule>, c: seq<Rule>)
    ensures forall i :: 0 <= i < |a + b + c| ==>
              (a + b + c)[i] == if i < |a| then a[i] else if i < |a| + |b| then b[i - |a|] else c[i - |a| - |b|]
  {
  }

  lemma OrderLength(order: seq<string>, utuns: Utuns)
    requires Orders(order, utuns)
    ensures |order| == |utuns|
  {
    DistinctSize(order, utuns.Keys);
  }

  lemma {:induction false} DistinctSize(order: seq<string>, keys: set<string>)
    requires forall i, j :: 0 <= i < j < |order| ==> order[i] != order[j]
    requires forall k :: k in order <==> k in keys
    ensures |order| == |keys|
  {
    if order == [] {
      assert keys == {};
    } else {
      var n := |order| - 1;
      assert order == order[..n] + [order[n]];
      assert forall i :: 0 <= i < n ==> order[..n][i] != order[n];
      DistinctSize(order[..n], keys - {order[n]});
    }
  }

  const LOOPBACK := Ip(127, 0, 0, 1)

  /** A connection on its way in: the interface, the address it is for, protocol and port. */
  datatype Connection = Connection(iface: string, dest: Ip, key: Key)

  predicate Redirects(r: Rule, c: Connection) {
    r.Rdr? && r.iface == c.iface && KeyOf(r.rdr) == c.key && (r.local ==> c.dest == LOOPBACK)
  }

  /** Where the first redirection that matches sends a connection. */
  function Redirect(rules: seq<Rule>, c: Connection): Option<Target> {
    if rules == [] then None
    else if Redirects(rules[0], c) then Some(TargetOf(rules[0].rdr))
    else Redirect(rules[1..], c)
  }

  lemma {:induction false} RedirectAppend(a: seq<Rule>, b: seq<Rule>, c: Connection)
    ensures Redirect(a + b, c) == if Redirect(a, c).Some? then Redirect(a, c) else Redirect(b, c)
  {
    if a == [] {
      assert a + b == b;
    } else {
      assert (a + b)[1..] == a[1..] + b;
      RedirectAppend(a[1..], b, c);
    }
  }

  lemma {:induction false} NoRedirect(a: seq<Rule>, c: Connection)
    requires forall r <- a :: !r.Rdr?
    ensures Redirect(a, c) == None
  {
    if a != [] {
      NoRedirect(a[1..], c);
    }
  }

  function Lookup(m: map<Key, Target>, key: Key): Option<Target> {
    if key in m then Some(m[key]) else None
  }

  /** Connections for this host, and those that come in by the egress interface. */
  predicate Reached(c: Connection, egress: Option<string>) {
    (c.iface == "lo0" && c.dest == LOOPBACK) || egress == Some(c.iface)
  }

  lemma PairRedirect(r: RdrRule, egress: Option<string>, c: Connection)
    ensures Redirect(RdrPair(r, egress), c)
         == if KeyOf(r) == c.key && Reached(c, egress) then Some(TargetOf(r)) else None
  {
    OneRedirect(Rdr("lo0", true, r), c);
    if egress.Some? {
      OneRedirect(Rdr(egress.value, false, r), c);
      RedirectAppend([Rdr("lo0", true, r)], [Rdr(egress.value, false, r)], c);
    } else {
      assert RdrPair(r, egress) == [Rdr("lo0", true, r)];
    }
  }

  lemma OneRedirect(r: Rule, c: Connection)
    requires r.Rdr?
    ensures Redirect([r], c) == if Redirects(r, c) then Some(TargetOf(r.rdr)) else None
  {
    assert [r][1..] == [];
  }

  lemma {:induction false} RedirectsAreLookups(rules: seq<RdrRule>, egress: Option<string>, c: Connection)
    requires DistinctKeys(rules)
    ensures Redirect(RdrRules(rules, egress), c) == if Reached(c, egress) then Lookup(MapOf(rules), c.key) else None
  {
    if rules != [] {
      var n := |rules| - 1;
      RedirectsAreLookups(rules[..n], egress, c);
      RedirectAppend(RdrRules(rules[..n], egress), RdrPair(rules[n], egress), c);
      PairRedirect(rules[n], egress, c);
      KeysAreListed(rules[..n], c.key);
      assert forall i :: 0 <= i < n ==> KeyOf(rules[..n][i]) != KeyOf(rules[n]);
      hide RdrRules, RdrPair, Redirect, DistinctKeys, Reached;
    }
  }

  lemma {:induction false} KeysAreListed(rules: seq<RdrRule>, key: Key)
    ensures key in MapOf(rules) <==> exists i :: 0 <= i < |rules| && KeyOf(rules[i]) == key
  {
    if rules != [] {
      var n := |rules| - 1;
      KeysAreListed(rules[..n], key);
      assert forall i :: 0 <= i < n ==> rules[..n][i] == rules[i];
    }
  }

  /** What a rendering redirects: connections for 127.0.0.1 on loopback, and all those on the first
      relay's egress interface. */
  lemma RenderRedirects(order: seq<string>, utuns: Utuns, rules: seq<RdrRule>, c: Connection)
    requires Orders(order, utuns) && DistinctKeys(rules)
    ensures forall k <- order :: k in utuns
    ensures Redirect(Render(order, utuns, rules), c)
         == if Reached(c, AnyEgress(order, utuns)) then Lookup(MapOf(rules), c.key) else None
  {
    InOrder(order, utuns);
    hide Orders, Render, NatRules, RdrRules, PassRules, AnyEgress, Reached, Redirect;
    var nats, rdrs, passes := Sections(order, utuns, rules);
    RedirectAppend(nats + rdrs, passes, c);
    RedirectAppend(nats, rdrs, c);
    NoRedirect(nats, c);
    NoRedirect(passes, c);
    RedirectsAreLookups(rules, AnyEgress(order, utuns), c);
  }

  lemma EgressOf(order: seq<string>, utuns: Utuns)
    requires Orders(order, utuns)
    ensures forall k <- order :: k in utuns
    ensures AnyEgress(order, utuns).None? <==> utuns == map[]
    ensures AnyEgress(order, utuns).Some? ==> exists u <- utuns :: utuns[u].egressIface == AnyEgress(order, utuns).value
  {
    if order != [] {
      assert order[0] in order;
    }
    assert utuns == map[] <==> order == [] by {
      if order == [] {
        assert utuns.Keys == {};
      }
    }
  }

  /** In a loaded anchor connections for 127.0.0.1 on loopback are redirected as the map says, and
      so are all those on one active relay's egress interface; no others are. */
  lemma AnchorFollowsMap(anchor: seq<Rule>, utuns: Utuns, rules: seq<RdrRule>) returns (egress: Option<string>)
    requires Loaded(anchor, utuns, rules) && DistinctKeys(rules)
    ensures egress.None? <==> utuns == map[]
    ensures egress.Some? ==> exists u <- utuns :: utuns[u].egressIface == egress.value
    ensures forall c :: Redirect(anchor, c) == if Reached(c, egress) then Lookup(MapOf(rules), c.key) else None
  {
    var order :| Orders(order, utuns) && anchor == Render(order, utuns, rules);
    hide Orders, Render, Reached, Redirect;
    EgressOf(order, utuns);
    egress := AnyEgress(order, utuns);
    forall c
      ensures Redirect(anchor, c) == if Reached(c, egress) then Lookup(MapOf(rules), c.key) else None
    {
      RenderRedirects(order, utuns, rules, c);
    }
  }

  ghost predicate OneEgress(utuns: Utuns) {
    forall u, v :: u in utuns && v in utuns ==> utuns[u].egressIface == utuns[v].egressIface
  }

  /** In whatever order the relays are written, every connection is redirected alike. */
  ghost predicate RedirectAlike(utuns: Utuns, rules: seq<RdrRule>) {
    forall a, b, c :: Loaded(a, utuns, rules) && Loaded(b, utuns, rules) ==> Redirect(a, c) == Redirect(b, c)
  }

  /** A relay written first has its interface redirected. */
  lemma RedirectedFirst(utuns: Utuns, rules: seq<RdrRule>, u: string, c: Connection) returns (anchor: seq<Rule>)
    requires u in utuns && DistinctKeys(rules) && c.dest != LOOPBACK
    ensures Loaded(anchor, utuns, rules)
    ensures Redirect(anchor, c) == if c.iface == utuns[u].egressIface then Lookup(MapOf(rules), c.key) else None
  {
    hide Render, Redirect;
    var order := OrderFrom(utuns, u);
    RenderRedirects(order, utuns, rules, c);
    anchor := Render(order, utuns, rules);
  }

  lemma EmptyMap(rules: seq<RdrRule>)
    requires rules == []
    ensures MapOf(rules) == map[]
  {
  }

  /** The redirections do not depend on the order exactly when all active relays have one egress
      interface, or there is nothing to redirect. */
  lemma RedirectAlikeExactly(utuns: Utuns, rules: seq<RdrRule>)
    requires DistinctKeys(rules)
    ensures RedirectAlike(utuns, rules) <==> OneEgress(utuns) || rules == []
  {
    hide Loaded, Redirect, MapOf, DistinctKeys;
    if OneEgress(utuns) || rules == [] {
      if rules == [] {
        EmptyMap(rules);
      }
      forall a, b, c | Loaded(a, utuns, rules) && Loaded(b, utuns, rules)
        ensures Redirect(a, c) == Redirect(b, c)
      {
        var e := AnchorFollowsMap(a, utuns, rules);
        var f := AnchorFollowsMap(b, utuns, rules);
      }
    } else {
      var u, v :| u in utuns && v in utuns && utuns[u].egressIface != utuns[v].egressIface;
      var c := Connection(utuns[u].egressIface, Ip(0, 0, 0, 0), KeyOf(rules[0]));
      var a := RedirectedFirst(utuns, rules, u, c);
      var b := RedirectedFirst(utuns, rules, v, c);
      KeysAreListed(rules, c.key);
      assert Redirect(a, c) != Redirect(b, c);
    }
  }

  // ---- Address translation ---------------------------------------------------------------

  /** A packet from this source leaving by this interface meets the rule. */
  predicate Matches(r: Rule, egress: string, source: Ip) {
    r.Nat? && r.egress == egress && Covers(r.cidr, source)
  }

  /** The first NAT rule of an anchor that a packet meets. */
  function FirstNat(rules: seq<Rule>, egress: string, source: Ip): Option<Rule> {
    if rules == [] then None
    else if Matches(rules[0], egress, source) then Some(rules[0])
    else FirstNat(rules[1..], egress, source)
  }

  lemma {:induction false} FirstNatMatches(rules: seq<Rule>, egress: string, source: Ip)
    ensures var first := FirstNat(rules, egress, source);
            if first.Some? then first.value in rules && Matches(first.value, egress, source)
            else forall r <- rules :: !Matches(r, egress, source)
  {
    hide Matches;
    if rules != [] {
      assert forall r :: r in rules <==> r == rules[0] || r in rules[1..];
      FirstNatMatches(rules[1..], egress, source);
    }
  }

  /** The NAT rules of a loaded anchor are those of the active relays. */
  lemma NatsOfAnchor(anchor: seq<Rule>, utuns: Utuns, rules: seq<RdrRule>)
    requires Loaded(anchor, utuns, rules)
    ensures forall r :: r in anchor && r.Nat? <==> exists u <- utuns :: r == NatOf(utuns[u])
  {
    var order :| Orders(order, utuns) && anchor == Render(order, utuns, rules);
    hide Render, NatRules, RdrRules, PassRules, AnyEgress;
    var nats, rdrs, passes := Sections(order, utuns, rules);
    forall r
      ensures r in anchor && r.Nat? <==> r in nats
    {
    }
    forall u | u in utuns
      ensures NatOf(utuns[u]) in nats
    {
      assert u in order;
      var i :| 0 <= i < |order| && order[i] == u;
      assert nats[i] == NatOf(utuns[u]);
    }
    forall r | r in nats
      ensures exists u <- utuns :: r == NatOf(utuns[u])
    {
      var i :| 0 <= i < |nats| && nats[i] == r;
      assert order[i] in order;
      assert r == NatOf(utuns[order[i]]);
    }
  }

  /** Whether a packet is translated never depends on the order of the relays. */
  lemma TranslatedExactly(anchor: seq<Rule>, utuns: Utuns, rules: seq<RdrRule>, egress: string, source: Ip)
    requires Loaded(anchor, utuns, rules)
    ensures FirstNat(anchor, egress, source).Some? <==> exists u <- utuns :: Matches(NatOf(utuns[u]), egress, source)
  {
    hide Loaded, FirstNat, Covers;
    NatsOfAnchor(anchor, utuns, rules);
    FirstNatMatches(anchor, egress, source);
  }

  /** The filter rules of a loaded anchor let each active relay's network talk to itself. */
  lemma PassesOfAnchor(anchor: seq<Rule>, utuns: Utuns, rules: seq<RdrRule>)
    requires Loaded(anchor, utuns, rules)
    ensures forall r :: r in anchor && r.Pass? <==> exists u <- utuns :: r == Pass(utuns[u].ipv4Cidr)
  {
    var order :| Orders(order, utuns) && anchor == Render(order, utuns, rules);
    InOrder(order, utuns);
    RulesByPlace(order, utuns);
    hide Render, NatRules, RdrRules, PassRules, AnyEgress;
    var nats, rdrs, passes := Sections(order, utuns, rules);
    PlacedPasses(order, utuns, passes);
    forall r
      ensures r in anchor && r.Pass? <==> r in passes
    {
    }
  }

  lemma PlacedPasses(order: seq<string>, utuns: Utuns, passes: seq<Rule>)
    requires Orders(order, utuns) && |passes| == |order|
    requires forall i :: 0 <= i < |order| ==> order[i] in utuns && passes[i] == Pass(utuns[order[i]].ipv4Cidr)
    ensures forall r :: r in passes <==> exists u <- utuns :: r == Pass(utuns[u].ipv4Cidr)
  {
    forall u | u in utuns
      ensures Pass(utuns[u].ipv4Cidr) in passes
    {
      assert u in order;
      var i :| 0 <= i < |order| && order[i] == u;
      assert passes[i] in passes;
    }
  }

  /** The packet filter lets a packet pass whatever comes after. */
  predicate Passed(anchor: seq<Rule>, src: Ip, dst: Ip) {
    exists r <- anchor :: r.Pass? && Covers(r.cidr, src) && Covers(r.cidr, dst)
  }

  /** Packets pass exactly inside the network of an active relay. */
  lemma PassedExactly(anchor: seq<Rule>, utuns: Utuns, rules: seq<RdrRule>, src: Ip, dst: Ip)
    requires Loaded(anchor, utuns, rules)
    ensures Passed(anchor, src, dst)
            <==> exists u <- utuns :: Covers(utuns[u].ipv4Cidr, src) && Covers(utuns[u].ipv4Cidr, dst)
  {
    hide Loaded, Covers;
    PassesOfAnchor(anchor, utuns, rules);
    if u :| u in utuns && Covers(utuns[u].ipv4Cidr, src) && Covers(utuns[u].ipv4Cidr, dst) {
      assert Pass(utuns[u].ipv4Cidr) in anchor;
    }
  }

  /** Relays with different networks on one interface share no address. */
  ghost predicate Apart(utuns: Utuns) {
    forall u, v, ip | u in utuns && v in utuns && IsIp(ip) && utuns[u].egressIface == utuns[v].egressIface ::
      Covers(utuns[u].ipv4Cidr, ip) && Covers(utuns[v].ipv4Cidr, ip) ==> utuns[u].ipv4Cidr == utuns[v].ipv4Cidr
  }

  /** In whatever order the relays are written, a packet meets the same rule first. */
  ghost predicate SameFirst(utuns: Utuns, rules: seq<RdrRule>) {
    forall a, b, egress, source :: Loaded(a, utuns, rules) && Loaded(b, utuns, rules) && IsIp(source) ==>
      FirstNat(a, egress, source) == FirstNat(b, egress, source)
  }

  lemma MatchesAgree(utuns: Utuns, r: Rule, q: Rule, egress: string, source: Ip)
    requires Apart(utuns) && IsIp(source) && Matches(r, egress, source) && Matches(q, egress, source)
    requires (exists u <- utuns :: r == NatOf(utuns[u])) && exists v <- utuns :: q == NatOf(utuns[v])
    ensures r == q
  {
    hide Covers;
  }

  lemma OrderFrom(utuns: Utuns, first: string) returns (order: seq<string>)
    requires first in utuns
    ensures Orders(order, utuns) && order != [] && order[0] == first
  {
    var rest := SomeOrder(utuns.Keys - {first});
    order := [first] + rest;
    assert forall i :: 0 <= i < |rest| ==> rest[i] in rest;
    forall i, j | 0 <= i < j < |order|
      ensures order[i] != order[j]
    {
    }
  }

  lemma SomeOrder(keys: set<string>) returns (order: seq<string>)
    ensures forall i, j :: 0 <= i < j < |order| ==> order[i] != order[j]
    ensures forall k :: k in order <==> k in keys
  {
    if keys == {} {
      order := [];
    } else {
      var k :| k in keys;
      var rest := SomeOrder(keys - {k});
      assert forall i :: 0 <= i < |rest| ==> rest[i] in rest;
      order := rest + [k];
    }
  }

  /** A relay written first is met first. */
  lemma MetFirst(utuns: Utuns, rules: seq<RdrRule>, u: string, source: Ip) returns (anchor: seq<Rule>)
    requires u in utuns && Covers(utuns[u].ipv4Cidr, source)
    ensures Loaded(anchor, utuns, rules)
    ensures FirstNat(anchor, utuns[u].egressIface, source) == Some(NatOf(utuns[u]))
  {
    hide Covers;
    var order := OrderFrom(utuns, u);
    anchor := Render(order, utuns, rules);
    var nats, rdrs, passes := Sections(order, utuns, rules);
    assert anchor[0] == nats[0];
  }

  /** Which rule a packet meets first is independent of the order exactly when relays with
      different networks on one interface share no address. */
  lemma SameFirstExactly(utuns: Utuns, rules: seq<RdrRule>)
    ensures SameFirst(utuns, rules) <==> Apart(utuns)
  {
    hide Loaded, FirstNat, Covers, Matches;
    if Apart(utuns) {
      forall a, b, egress, source | Loaded(a, utuns, rules) && Loaded(b, utuns, rules) && IsIp(source)
        ensures FirstNat(a, egress, source) == FirstNat(b, egress, source)
      {
        ApartSameFirst(a, b, utuns, rules, egress, source);
      }
    } else {
      var u, v, ip :| && u in utuns && v in utuns && IsIp(ip) && utuns[u].egressIface == utuns[v].egressIface
                      && Covers(utuns[u].ipv4Cidr, ip) && Covers(utuns[v].ipv4Cidr, ip)
                      && utuns[u].ipv4Cidr != utuns[v].ipv4Cidr;
      var a := MetFirst(utuns, rules, u, ip);
      var b := MetFirst(utuns, rules, v, ip);
      assert FirstNat(a, utuns[u].egressIface, ip) != FirstNat(b, utuns[u].egressIface, ip);
    }
  }

  lemma ApartSameFirst(a: seq<Rule>, b: seq<Rule>, utuns: Utuns, rules: seq<RdrRule>, egress: string, source: Ip)
    requires Apart(utuns) && Loaded(a, utuns, rules) && Loaded(b, utuns, rules) && IsIp(source)
    ensures FirstNat(a, egress, source) == FirstNat(b, egress, source)
  {
    hide Loaded, FirstNat, Covers, Apart, Matches;
    NatsOfAnchor(a, utuns, rules);
    NatsOfAnchor(b, utuns, rules);
    FirstNatMatches(a, egress, source);
    FirstNatMatches(b, egress, source);
    TranslatedExactly(a, utuns, rules, egress, source);
    TranslatedExactly(b, utuns, rules, egress, source);
    var f, g := FirstNat(a, egress, source), FirstNat(b, egress, source);
    if f.Some? && g.Some? {
      MatchesIsNat(f.value, egress, source);
      MatchesIsNat(g.value, egress, source);
      MatchesAgree(utuns, f.value, g.value, egress, source);
    }
  }

  lemma MatchesIsNat(r: Rule, egress: string, source: Ip)
    requires Matches(r, egress, source)
    ensures r.Nat?
  {
  }

  // ---- Each profile's packets meet its own rule ------------------------------------------

  /** The network of an address that a profile was given. */
  ghost predicate Owns(calls: seq<Subnets.Called>, profile: string, cidr: string) {
    exists j :: 0 <= j < |calls| && calls[j].profile == profile && calls[j].ip.Some?
                && cidr == FromGuestIp(calls[j].ip.value).cidr
  }

  ghost predicate Given(calls: seq<Subnets.Called>, cidr: string) {
    exists profile :: Owns(calls, profile, cidr)
  }

  /** Relays are set up with networks of addresses that were given. */
  ghost predicate SetUpAsGiven(calls: seq<Subnets.Called>, qs: seq<Request>) {
    forall q <- qs :: q.SetupUtun? ==> Given(calls, q.cidr)
  }

  lemma {:induction false} ActiveAsGiven(alphanumeric: char -> bool, calls: seq<Subnets.Called>, qs: seq<Request>)
    requires SetUpAsGiven(calls, qs)
    ensures forall u <- ServeAll(alphanumeric, qs).utuns :: Given(calls, ServeAll(alphanumeric, qs).utuns[u].ipv4Cidr)
  {
    hide Given;
    if qs != [] {
      var n := |qs| - 1;
      assert qs[n] in qs && forall q <- qs[..n] :: q in qs;
      ActiveAsGiven(alphanumeric, calls, qs[..n]);
      ServeAsGiven(alphanumeric, calls, ServeAll(alphanumeric, qs[..n]), qs[n]);
    }
  }

  lemma ServeAsGiven(alphanumeric: char -> bool, calls: seq<Subnets.Called>, w: World, q: Request)
    requires q.SetupUtun? ==> Given(calls, q.cidr)
    requires forall u <- w.utuns :: Given(calls, w.utuns[u].ipv4Cidr)
    ensures forall u <- Serve(alphanumeric, w, q).utuns :: Given(calls, Serve(alphanumeric, w, q).utuns[u].ipv4Cidr)
  {
    hide Given, IsSafeIface, KeyOf, TargetOf, Others;
  }

  /** Networks that cover one address are one network of one profile. */
  lemma OneOwner(ss: seq<Subnets.Confs>, calls: seq<Subnets.Called>, p: string, q: string, x: string, y: string, ip: Ip)
    requires Subnets.Run(ss, calls) && IsIp(ip)
    requires Owns(calls, p, x) && Owns(calls, q, y) && Covers(x, ip) && Covers(y, ip)
    ensures p == q && x == y
  {
    hide Covers, FromGuestIp;
    var i :| 0 <= i < |calls| && calls[i].profile == p && calls[i].ip.Some? && x == FromGuestIp(calls[i].ip.value).cidr;
    var j :| 0 <= j < |calls| && calls[j].profile == q && calls[j].ip.Some? && y == FromGuestIp(calls[j].ip.value).cidr;
    Subnets.ProfileNetworks(ss, calls, i, j, ip);
  }

  /** A profile has one network, and it covers an address. */
  lemma OneNetwork(ss: seq<Subnets.Confs>, calls: seq<Subnets.Called>, p: string, x: string, y: string) returns (ip: Ip)
    requires Subnets.Run(ss, calls) && Owns(calls, p, x) && Owns(calls, p, y)
    ensures x == y && IsIp(ip) && Covers(x, ip)
  {
    hide Covers, FromGuestIp;
    var i :| 0 <= i < |calls| && calls[i].profile == p && calls[i].ip.Some? && x == FromGuestIp(calls[i].ip.value).cidr;
    var j :| 0 <= j < |calls| && calls[j].profile == p && calls[j].ip.Some? && y == FromGuestIp(calls[j].ip.value).cidr;
    ip := calls[i].ip.value;
    Subnets.AddressIsIp(ss, calls, i);
    Subnets.ProfileNetworks(ss, calls, i, j, ip);
    GuestCovers(ip, ip);
  }

  /** No profile has two active relays. */
  ghost predicate OneRelayEach(calls: seq<Subnets.Called>, utuns: Utuns) {
    forall u, v, p :: u in utuns && v in utuns && Owns(calls, p, utuns[u].ipv4Cidr) && Owns(calls, p, utuns[v].ipv4Cidr)
                      ==> u == v
  }

  /** No two rules of the anchor cover one source. */
  ghost predicate CoveredOnce(anchor: seq<Rule>) {
    forall i, j, ip :: 0 <= i < j < |anchor| && anchor[i].Nat? && anchor[j].Nat? && IsIp(ip) ==>
      !(Covers(anchor[i].cidr, ip) && Covers(anchor[j].cidr, ip))
  }

  lemma GivenApart(ss: seq<Subnets.Confs>, calls: seq<Subnets.Called>, utuns: Utuns)
    requires Subnets.Run(ss, calls) && forall u <- utuns :: Given(calls, utuns[u].ipv4Cidr)
    ensures Apart(utuns)
  {
    hide Covers, Owns, Subnets.Run;
    forall u, v, ip | && u in utuns && v in utuns && IsIp(ip)
                      && Covers(utuns[u].ipv4Cidr, ip) && Covers(utuns[v].ipv4Cidr, ip)
      ensures utuns[u].ipv4Cidr == utuns[v].ipv4Cidr
    {
      var p :| Owns(calls, p, utuns[u].ipv4Cidr);
      var q :| Owns(calls, q, utuns[v].ipv4Cidr);
      OneOwner(ss, calls, p, q, utuns[u].ipv4Cidr, utuns[v].ipv4Cidr, ip);
    }
  }

  /** Where the NAT rules of a loaded anchor stand. */
  lemma NatPlaces(anchor: seq<Rule>, utuns: Utuns, rules: seq<RdrRule>) returns (order: seq<string>)
    requires Loaded(anchor, utuns, rules)
    ensures Orders(order, utuns) && |order| <= |anchor|
    ensures forall i :: 0 <= i < |anchor| ==> (anchor[i].Nat? <==> i < |order|)
    ensures forall i :: 0 <= i < |order| ==> order[i] in utuns && anchor[i] == NatOf(utuns[order[i]])
  {
    order :| Orders(order, utuns) && anchor == Render(order, utuns, rules);
    hide Render, Orders, NatRules, RdrRules, PassRules, AnyEgress;
    var nats, rdrs, passes := Sections(order, utuns, rules);
    SectionKinds(nats, rdrs, passes);
  }

  lemma CoveredByOne(ss: seq<Subnets.Confs>, calls: seq<Subnets.Called>, utuns: Utuns, u: string, v: string, ip: Ip)
    requires Subnets.Run(ss, calls) && OneRelayEach(calls, utuns) && IsIp(ip) && u in utuns && v in utuns
    requires Given(calls, utuns[u].ipv4Cidr) && Given(calls, utuns[v].ipv4Cidr)
    requires Covers(utuns[u].ipv4Cidr, ip) && Covers(utuns[v].ipv4Cidr, ip)
    ensures u == v
  {
    hide Covers, Owns, Subnets.Run;
    var p :| Owns(calls, p, utuns[u].ipv4Cidr);
    var q :| Owns(calls, q, utuns[v].ipv4Cidr);
    OneOwner(ss, calls, p, q, utuns[u].ipv4Cidr, utuns[v].ipv4Cidr, ip);
  }

  lemma CoveredTwice(anchor: seq<Rule>, i: nat, j: nat, ip: Ip)
    requires i < |anchor| && j < |anchor| && i != j && anchor[i].Nat? && anchor[j].Nat?
    requires IsIp(ip) && Covers(anchor[i].cidr, ip) && Covers(anchor[j].cidr, ip)
    ensures !CoveredOnce(anchor)
  {
    hide Covers;
  }

  lemma CoveredOnceExactly(ss: seq<Subnets.Confs>, calls: seq<Subnets.Called>, anchor: seq<Rule>, utuns: Utuns,
                           rules: seq<RdrRule>)
    requires Subnets.Run(ss, calls) && Loaded(anchor, utuns, rules)
    requires forall u <- utuns :: Given(calls, utuns[u].ipv4Cidr)
    ensures CoveredOnce(anchor) <==> OneRelayEach(calls, utuns)
  {
    hide Covers, Owns, Given, Subnets.Run, Loaded;
    var order := NatPlaces(anchor, utuns, rules);
    if OneRelayEach(calls, utuns) {
      hide OneRelayEach;
      forall i, j, ip | 0 <= i < j < |anchor| && anchor[i].Nat? && anchor[j].Nat? && IsIp(ip)
        ensures !(Covers(anchor[i].cidr, ip) && Covers(anchor[j].cidr, ip))
      {
        if Covers(anchor[i].cidr, ip) && Covers(anchor[j].cidr, ip) {
          CoveredByOne(ss, calls, utuns, order[i], order[j], ip);
        }
      }
    } else {
      var u, v, p :| && u in utuns && v in utuns && u != v
                     && Owns(calls, p, utuns[u].ipv4Cidr) && Owns(calls, p, utuns[v].ipv4Cidr);
      hide CoveredOnce, OneRelayEach;
      var ip := OneNetwork(ss, calls, p, utuns[u].ipv4Cidr, utuns[v].ipv4Cidr);
      assert u in order && v in order;
      var i :| 0 <= i < |order| && order[i] == u;
      var j :| 0 <= j < |order| && order[j] == v;
      CoveredTwice(anchor, i, j, ip);
    }
  }

  lemma MeetsOwnRule(anchor: seq<Rule>, utuns: Utuns, rules: seq<RdrRule>, u: string, source: Ip)
    requires Apart(utuns) && Loaded(anchor, utuns, rules) && u in utuns && IsIp(source)
    requires Covers(utuns[u].ipv4Cidr, source)
    ensures FirstNat(anchor, utuns[u].egressIface, source) == Some(NatOf(utuns[u]))
  {
    hide Loaded, FirstNat, Covers, Apart;
    var egress := utuns[u].egressIface;
    assert Matches(NatOf(utuns[u]), egress, source);
    NatsOfAnchor(anchor, utuns, rules);
    TranslatedExactly(anchor, utuns, rules, egress, source);
    FirstNatMatches(anchor, egress, source);
    MatchesAgree(utuns, FirstNat(anchor, egress, source).value, NatOf(utuns[u]), egress, source);
  }

  /** From allocation to the kernel: whatever calls handed out the addresses and whatever requests
      the helper served, a packet with a source in an active relay's network meets that relay's own
      rule first, in every order; networks that cover one source are one profile's; and no two rules
      cover one source exactly when no profile has two active relays. */
  lemma EachProfileItsOwnRule(ss: seq<Subnets.Confs>, calls: seq<Subnets.Called>, alphanumeric: char -> bool,
                              qs: seq<Request>, anchor: seq<Rule>, rules: seq<RdrRule>)
    requires Subnets.Run(ss, calls) && SetUpAsGiven(calls, qs)
    requires Loaded(anchor, ServeAll(alphanumeric, qs).utuns, rules)
    ensures var utuns := ServeAll(alphanumeric, qs).utuns;
            && SameFirst(utuns, rules)
            && (forall u, source | u in utuns && IsIp(source) && Covers(utuns[u].ipv4Cidr, source) ::
                  FirstNat(anchor, utuns[u].egressIface, source) == Some(NatOf(utuns[u])))
            && (CoveredOnce(anchor) <==> OneRelayEach(calls, utuns))
    ensures forall p, q, x, y, ip | IsIp(ip) && Covers(x, ip) && Covers(y, ip) ::
              Owns(calls, p, x) && Owns(calls, q, y) ==> p == q && x == y
  {
    hide Covers, Owns, Subnets.Run, Loaded, ServeAll, SameFirst, CoveredOnce, OneRelayEach, Given, Apart, FirstNat;
    var utuns := ServeAll(alphanumeric, qs).utuns;
    ActiveAsGiven(alphanumeric, calls, qs);
    GivenApart(ss, calls, utuns);
    SameFirstExactly(utuns, rules);
    CoveredOnceExactly(ss, calls, anchor, utuns, rules);
    forall u, source | u in utuns && IsIp(source) && Covers(utuns[u].ipv4Cidr, source)
      ensures FirstNat(anchor, utuns[u].egressIface, source) == Some(NatOf(utuns[u]))
    {
      MeetsOwnRule(anchor, utuns, rules, u, source);
    }
    forall p, q, x, y, ip | IsIp(ip) && Covers(x, ip) && Covers(y, ip) && Owns(calls, p, x) && Owns(calls, q, y)
      ensures p == q && x == y
    {
      OneOwner(ss, calls, p, q, x, y, ip);
    }
  }
}
