/** The helper's relays, redirections and aliases, told from the history of requests alone. */
module PfHistory {
  import opened PfHelper
  import opened Wrappers

  // ---- The last word on one thing --------------------------------------------------------

  datatype Effect<T> = Put(value: T) | Clear | Keep

  function Outcome<T>(es: seq<Effect<T>>): Option<T> {
    if es == [] then None
    else match es[|es| - 1]
      case Put(v) => Some(v)
      case Clear => None
      case Keep => Outcome(es[..|es| - 1])
  }

  ghost predicate PutAt<T(!new)>(es: seq<Effect<T>>, v: T, k: nat) {
    k < |es| && es[k] == Put(v) && forall j :: k < j < |es| ==> es[j] == Keep
  }

  /** What holds in the end is what was put and neither replaced nor cleared since. */
  lemma {:induction false} OutcomeSince<T(!new)>(es: seq<Effect<T>>, v: T)
    ensures Outcome(es) == Some(v) <==> exists k: nat :: PutAt(es, v, k)
  {
    if es != [] {
      var n := |es| - 1;
      OutcomeSince(es[..n], v);
      if k: nat :| PutAt(es, v, k) {
        if k < n {
          assert es[..n][k] == es[k] && es[n] == Keep;
          assert PutAt(es[..n], v, k);
        }
      }
      if Outcome(es) == Some(v) {
        if es[n].Put? {
          assert PutAt(es, v, n);
        } else {
          var k: nat :| PutAt(es[..n], v, k);
          assert PutAt(es, v, k);
        }
      }
    }
  }

  lemma OutcomeSnoc<T>(es: seq<Effect<T>>, e: Effect<T>)
    ensures Outcome(es + [e]) == match e case Put(v) => Some(v) case Clear => None case Keep => Outcome(es)
  {
    assert (es + [e])[..|es|] == es;
  }

  // ---- What a request does to one thing --------------------------------------------------

  /** To the redirection of a protocol and port: it goes with a removal, and with the last relay. */
  function RdrEffect(alphanumeric: char -> bool, before: seq<Request>, q: Request, proto: string, port: nat)
    : Effect<Target>
  {
    match q
    case AddRdr(r, _) =>
      if r.proto == proto && r.hostPort == port && (proto == "tcp" || proto == "udp") then Put((r.vmIp, r.vmPort))
      else Keep
    case RemoveRdr(p, h, _) => if p == proto && h == port then Clear else Keep
    case TeardownUtun(iface, _) =>
      if ServeAll(alphanumeric, before).utuns.Keys <= {iface} then Clear else Keep
    case _ => Keep
  }

  /** To a relay: a set-up counts when both names are safe and the commands before the packet filter
      succeed. */
  function RelayEffect(alphanumeric: char -> bool, q: Request, u: string): Effect<UtunSetup> {
    match q
    case SetupUtun(iface, cidr, egress, luck) =>
      if iface == u && IsSafeIface(alphanumeric, u) && IsSafeIface(alphanumeric, egress)
         && luck.ifconfig && luck.sysctl4 && luck.sysctl6
      then Put(UtunSetup(egress, cidr)) else Keep
    case TeardownUtun(iface, _) => if iface == u then Clear else Keep
    case _ => Keep
  }

  /** To an alias of an interface: it stays until the interface goes. */
  function AliasEffect(alphanumeric: char -> bool, q: Request, u: string, addr: string): Effect<()> {
    match q
    case AssignUtunAlias(iface, a, valid, luck) =>
      if iface == u && a == addr && valid && luck.route && IsSafeIface(alphanumeric, u) then Put(()) else Keep
    case TeardownUtun(iface, _) => if iface == u then Clear else Keep
    case _ => Keep
  }

  function RdrEffects(alphanumeric: char -> bool, qs: seq<Request>, proto: string, port: nat): seq<Effect<Target>> {
    if qs == [] then []
    else
      var n := |qs| - 1;
      RdrEffects(alphanumeric, qs[..n], proto, port) + [RdrEffect(alphanumeric, qs[..n], qs[n], proto, port)]
  }

  function RelayEffects(alphanumeric: char -> bool, qs: seq<Request>, u: string): seq<Effect<UtunSetup>> {
    if qs == [] then []
    else
      var n := |qs| - 1;
      RelayEffects(alphanumeric, qs[..n], u) + [RelayEffect(alphanumeric, qs[n], u)]
  }

  function AliasEffects(alphanumeric: char -> bool, qs: seq<Request>, u: string, addr: string): seq<Effect<()>> {
    if qs == [] then []
    else
      var n := |qs| - 1;
      AliasEffects(alphanumeric, qs[..n], u, addr) + [AliasEffect(alphanumeric, qs[n], u, addr)]
  }

  // ---- The state is the outcome ----------------------------------------------------------

  function RelayAt(utuns: Utuns, u: string): Option<UtunSetup> {
    if u in utuns then Some(utuns[u]) else None
  }

  lemma RdrServed(alphanumeric: char -> bool, qs: seq<Request>, q: Request, proto: string, port: nat)
    ensures var w := ServeAll(alphanumeric, qs);
            Lookup(Serve(alphanumeric, w, q).rdr, (proto, port))
            == match RdrEffect(alphanumeric, qs, q, proto, port)
               case Put(t) => Some(t)
               case Clear => None
               case Keep => Lookup(w.rdr, (proto, port))
  {
    hide ServeAll, IsSafeIface, Others;
    var w := ServeAll(alphanumeric, qs);
    if q.TeardownUtun? {
      assert w.utuns - {q.iface} == map[] <==> w.utuns.Keys <= {q.iface} by {
        LeavesNone(w.utuns, q.iface);
      }
    }
  }

  lemma LeavesNone(utuns: Utuns, u: string)
    ensures utuns - {u} == map[] <==> utuns.Keys <= {u}
  {
    if utuns.Keys <= {u} {
      assert (utuns - {u}).Keys == {};
    } else {
      var v :| v in utuns && v != u;
      assert v in utuns - {u};
    }
  }

  /** Every redirection is the one last added for its protocol and port, if it was not removed since,
      and some relay has stayed active. */
  lemma {:induction false} RedirectionsSince(alphanumeric: char -> bool, qs: seq<Request>, proto: string, port: nat)
    ensures Lookup(ServeAll(alphanumeric, qs).rdr, (proto, port))
         == Outcome(RdrEffects(alphanumeric, qs, proto, port))
  {
    hide Serve, RdrEffect;
    if qs != [] {
      var n := |qs| - 1;
      RedirectionsSince(alphanumeric, qs[..n], proto, port);
      RdrServed(alphanumeric, qs[..n], qs[n], proto, port);
      OutcomeSnoc(RdrEffects(alphanumeric, qs[..n], proto, port),
                  RdrEffect(alphanumeric, qs[..n], qs[n], proto, port));
    }
  }

  /** Every active relay has its last set-up, and has not been torn down since. */
  lemma {:induction false} RelaysSince(alphanumeric: char -> bool, qs: seq<Request>, u: string)
    ensures RelayAt(ServeAll(alphanumeric, qs).utuns, u) == Outcome(RelayEffects(alphanumeric, qs, u))
  {
    hide IsSafeIface, Others, KeyOf, TargetOf;
    if qs != [] {
      var n := |qs| - 1;
      RelaysSince(alphanumeric, qs[..n], u);
      OutcomeSnoc(RelayEffects(alphanumeric, qs[..n], u), RelayEffect(alphanumeric, qs[n], u));
    }
  }

  lemma {:induction false} OthersAre(aliases: seq<(string, string)>, iface: string)
    ensures forall a :: a in Others(aliases, iface) <==> a in aliases && a.0 != iface
  {
    if aliases != [] {
      assert forall a :: a in aliases <==> a == aliases[0] || a in aliases[1..];
      OthersAre(aliases[1..], iface);
    }
  }

  lemma AliasServed(alphanumeric: char -> bool, w: World, q: Request, u: string, addr: string)
    ensures (u, addr) in Serve(alphanumeric, w, q).aliases
            <==> match AliasEffect(alphanumeric, q, u, addr)
                 case Put(_) => true
                 case Clear => false
                 case Keep => (u, addr) in w.aliases
  {
    hide IsSafeIface, KeyOf, TargetOf;
    if q.TeardownUtun? {
      OthersAre(w.aliases, q.iface);
    }
    hide Others;
  }

  /** Every alias was granted, and its interface has not been torn down since. */
  lemma {:induction false} AliasesSince(alphanumeric: char -> bool, qs: seq<Request>, u: string, addr: string)
    ensures (u, addr) in ServeAll(alphanumeric, qs).aliases
            <==> Outcome(AliasEffects(alphanumeric, qs, u, addr)).Some?
  {
    hide Serve, AliasEffect;
    if qs != [] {
      var n := |qs| - 1;
      AliasesSince(alphanumeric, qs[..n], u, addr);
      AliasServed(alphanumeric, ServeAll(alphanumeric, qs[..n]), qs[n], u, addr);
      OutcomeSnoc(AliasEffects(alphanumeric, qs[..n], u, addr), AliasEffect(alphanumeric, qs[n], u, addr));
    }
  }

  /** From the requests to the kernel: a connection to the host goes where the last request about its
      protocol and port says. */
  lemma ConnectionsFollowRequests(alphanumeric: char -> bool, qs: seq<Request>, anchor: seq<Rule>,
                                  rules: seq<RdrRule>, c: Connection)
    requires Loaded(anchor, ServeAll(alphanumeric, qs).utuns, rules) && DistinctKeys(rules)
    requires MapOf(rules) == ServeAll(alphanumeric, qs).rdr
    requires c.iface == "lo0" && c.dest == LOOPBACK
    ensures Redirect(anchor, c) == Outcome(RdrEffects(alphanumeric, qs, c.key.0, c.key.1))
  {
    hide ServeAll, Loaded, DistinctKeys, MapOf, Redirect, RdrEffects, Outcome;
    var _ := AnchorFollowsMap(anchor, ServeAll(alphanumeric, qs).utuns, rules);
    RedirectionsSince(alphanumeric, qs, c.key.0, c.key.1);
  }

  /** A name with anything in it that could end a word of a rule is refused, and so is none. */
  lemma UnsafeIsRefused(alphanumeric: char -> bool, w: World, cidr: string, name: string, egress: string, luck: Luck,
                        c: char)
    requires !alphanumeric(c) && c != '-' && c != '_' && (c in name || c in egress || name == "" || egress == "")
    ensures Serve(alphanumeric, w, SetupUtun(name, cidr, egress, luck)) == w
  {
  }
}
