/** The daemon's registry of port forwards, changed by CLI commands, by compose commands and by
    the watcher that learns of container exits. */
module Ports {
  import opened Text
  import opened Wrappers

  const PORT_MAX: nat := 65535

  datatype PortForward = PortForward(hostPort: nat, containerPort: nat)

  /** "host:container", or one port for both. */
  function ParsePortSpec(spec: string): Option<PortForward> {
    if ':' in spec then
      match (ParseUnsigned(Before(spec, ':'), PORT_MAX), ParseUnsigned(After(spec, ':'), PORT_MAX))
      case (Some(h), Some(c)) => Some(PortForward(h, c))
      case _ => None
    else match ParseUnsigned(spec, PORT_MAX)
      case Some(p) => Some(PortForward(p, p))
      case None => None
  }

  lemma NoColon(n: nat)
    ensures ':' !in Digits(n)
  {
  }

  /** "host:container" and a single port are read as written, when they are ports at all. */
  lemma SpecIsRead(h: nat, c: nat)
    ensures ParsePortSpec(Digits(h) + [':'] + Digits(c))
         == if h <= PORT_MAX && c <= PORT_MAX then Some(PortForward(h, c)) else None
    ensures ParsePortSpec(Digits(h)) == if h <= PORT_MAX then Some(PortForward(h, h)) else None
  {
    NoColon(h);
    hide Digits, ParseUnsigned;
    Splits(Digits(h), ':', Digits(c));
    DigitsAreRead(h, PORT_MAX);
    DigitsAreRead(c, PORT_MAX);
  }

  datatype Command =
    | RegisterPort(hostPort: nat, containerPort: nat)
    | UnregisterPort(hostPort: nat)
    | TrackComposeProject(project: string, hostPorts: seq<nat>)
    | UnregisterComposePorts(project: string)

  datatype Watched = Watched(name: string, ports: seq<string>)

  datatype WatchEvent =
    | Snapshot(containers: seq<Watched>)
    | Started(container: Watched)
    | Exited(name: string)
    | Unknown

  /** What the connection handlers and the watcher do, in the order in which they get the lock. */
  datatype Action = Cli(cmd: Command) | Watch(event: WatchEvent)

  // ---- The registry ----------------------------------------------------------------------

  datatype World = World(
    active: map<nat, nat>,
    composeProjects: map<string, seq<nat>>,
    proxies: map<nat, nat>,                   // the target of each running proxy
    containerPorts: map<string, seq<string>>) // the watcher's own

  function Elements(ports: seq<nat>): set<nat> {
    set p | p in ports
  }

  /** The host ports of those specs that can be read. */
  function HostPorts(specs: seq<string>): set<nat> {
    set s | s in specs && ParsePortSpec(s).Some? :: ParsePortSpec(s).value.hostPort
  }

  function Collect(containers: seq<Watched>): map<string, seq<string>> {
    if containers == [] then map[]
    else
      var n := |containers| - 1;
      var c := containers[n];
      if c.ports == [] then Collect(containers[..n]) else Collect(containers[..n])[c.name := c.ports]
  }

  function Step(w: World, a: Action): World {
    match a
    case Cli(RegisterPort(h, c)) =>
      if h in w.active then w else w.(active := w.active[h := c], proxies := w.proxies[h := c])
    case Cli(UnregisterPort(h)) =>
      if h in w.active then w.(active := w.active - {h}, proxies := w.proxies - {h}) else w
    case Cli(TrackComposeProject(p, ports)) => w.(composeProjects := w.composeProjects[p := ports])
    case Cli(UnregisterComposePorts(p)) =>
      if p in w.composeProjects
      then w.(active := w.active - Elements(w.composeProjects[p]), composeProjects := w.composeProjects - {p})
      else w
    case Watch(Snapshot(cs)) => w.(containerPorts := Collect(cs))
    case Watch(Started(c)) =>
      if c.ports == [] then w else w.(containerPorts := w.containerPorts[c.name := c.ports])
    case Watch(Exited(n)) =>
      if n in w.containerPorts
      then w.(active := w.active - HostPorts(w.containerPorts[n]), containerPorts := w.containerPorts - {n})
      else w
    case Watch(Unknown) => w
  }

  function SpecOf(pf: PortForward): string {
    Digits(pf.hostPort) + [':'] + Digits(pf.containerPort)
  }

  /** When a container exits, exactly the host ports of its forwards are given up, and nothing else
      changes but that it is forgotten. */
  lemma ExitDrops(w: World, name: string, forwards: seq<PortForward>)
    requires forall pf <- forwards :: pf.hostPort <= PORT_MAX && pf.containerPort <= PORT_MAX
    requires name in w.containerPorts && |w.containerPorts[name]| == |forwards|
    requires forall i :: 0 <= i < |forwards| ==> w.containerPorts[name][i] == SpecOf(forwards[i])
    ensures var w' := Step(w, Watch(Exited(name)));
            && w' == w.(active := w'.active, containerPorts := w.containerPorts - {name})
            && forall p :: p in w'.active <==> p in w.active && forall pf <- forwards :: pf.hostPort != p
    ensures forall p <- Step(w, Watch(Exited(name))).active :: Step(w, Watch(Exited(name))).active[p] == w.active[p]
  {
    hide ParsePortSpec, SpecOf;
    var specs := w.containerPorts[name];
    forall i | 0 <= i < |forwards|
      ensures ParsePortSpec(specs[i]) == Some(forwards[i])
    {
      SpecOfIsRead(forwards[i]);
    }
    forall p
      ensures p in HostPorts(specs) <==> exists pf <- forwards :: pf.hostPort == p
    {
      if p in HostPorts(specs) {
        var s :| s in specs && ParsePortSpec(s).Some? && ParsePortSpec(s).value.hostPort == p;
        var i :| 0 <= i < |specs| && specs[i] == s;
        assert forwards[i] in forwards;
      }
      if pf :| pf in forwards && pf.hostPort == p {
        var i :| 0 <= i < |forwards| && forwards[i] == pf;
        assert specs[i] in specs;
      }
    }
  }

  lemma SpecOfIsRead(pf: PortForward)
    requires pf.hostPort <= PORT_MAX && pf.containerPort <= PORT_MAX
    ensures ParsePortSpec(SpecOf(pf)) == Some(pf)
  {
    SpecIsRead(pf.hostPort, pf.containerPort);
    hide ParsePortSpec;
  }

  /** Of the ports given at start each goes where the last forward for it says. */
  lemma {:induction false} LastForwardWins(forwards: seq<PortForward>, p: nat)
    ensures p !in Preregistered(forwards) <==> forall pf <- forwards :: pf.hostPort != p
    ensures p in Preregistered(forwards) ==>
              exists k :: 0 <= k < |forwards| && forwards[k] == PortForward(p, Preregistered(forwards)[p])
                          && forall j :: k < j < |forwards| ==> forwards[j].hostPort != p
  {
    if forwards != [] {
      var n := |forwards| - 1;
      LastForwardWins(forwards[..n], p);
      assert forwards == forwards[..n] + [forwards[n]];
      if forwards[n].hostPort == p {
        assert forwards[n] == PortForward(p, Preregistered(forwards)[p]);
      } else if p in Preregistered(forwards[..n]) {
        var k :| && 0 <= k < n && forwards[..n][k] == PortForward(p, Preregistered(forwards[..n])[p])
                 && forall j :: k < j < n ==> forwards[..n][j].hostPort != p;
        assert forwards[k] == PortForward(p, Preregistered(forwards)[p]);
        assert forall j :: k < j < n ==> forwards[j] == forwards[..n][j];
      }
    }
  }

  function Preregistered(forwards: seq<PortForward>): map<nat, nat> {
    if forwards == [] then map[]
    else
      var n := |forwards| - 1;
      Preregistered(forwards[..n])[forwards[n].hostPort := forwards[n].containerPort]
  }

  function Run(forwards: seq<PortForward>, actions: seq<Action>): World {
    if actions == [] then World(Preregistered(forwards), map[], Preregistered(forwards), map[])
    else Step(Run(forwards, actions[..|actions| - 1]), actions[|actions| - 1])
  }

  datatype Response = Ok | Err(existing: nat)

  class PortState {
    var active: map<nat, nat>
    var composeProjects: map<string, seq<nat>>
    var proxies: map<nat, nat>
    var containerPorts: map<string, seq<string>>

    ghost function Now(): World
      reads this
    {
      World(active, composeProjects, proxies, containerPorts)
    }

    /** The daemon's --port arguments. */
    constructor (forwards: seq<PortForward>)
      ensures Now() == Run(forwards, [])
    {
      active, composeProjects, proxies, containerPorts := map[], map[], map[], map[];
      new;
      for i := 0 to |forwards|
        invariant active == proxies == Preregistered(forwards[..i])
        invariant composeProjects == map[] && containerPorts == map[]
      {
        assert forwards[..i + 1][..i] == forwards[..i];
        var pf := forwards[i];
        proxies := proxies[pf.hostPort := pf.containerPort];
        active := active[pf.hostPort := pf.containerPort];
      }
      assert forwards[..|forwards|] == forwards;
    }

    method HandleDaemonCmd(cmd: Command) returns (response: Response)
      modifies this
      ensures Now() == Step(old(Now()), Cli(cmd))
      ensures cmd.RegisterPort? ==>
                && (response.Ok? <==> cmd.hostPort in active && active[cmd.hostPort] == cmd.containerPort)
                && (response.Err? ==> cmd.hostPort in active && response.existing == active[cmd.hostPort])
      ensures !cmd.RegisterPort? ==> response.Ok?
    {
      response := Ok;
      match cmd {
        case RegisterPort(hostPort, containerPort) =>
          if hostPort !in active {
            proxies := proxies[hostPort := containerPort];
            active := active[hostPort := containerPort];
          } else if active[hostPort] != containerPort {
            response := Err(active[hostPort]);
          }
        case UnregisterPort(hostPort) =>
          if hostPort in active {
            active := active - {hostPort};
            proxies := proxies - {hostPort};
          }
        case TrackComposeProject(project, hostPorts) =>
          composeProjects := composeProjects[project := hostPorts];
        case UnregisterComposePorts(project) =>
          if project in composeProjects {
            var ports := composeProjects[project];
            composeProjects := composeProjects - {project};
            DropActive(ports);
          }
      }
    }

    /** Ports leave the list of active forwards; their proxies stay. */
    method DropActive(ports: seq<nat>)
      modifies this`active
      ensures active == old(active) - Elements(ports)
    {
      for i := 0 to |ports|
        invariant active == old(active) - Elements(ports[..i])
      {
        assert Elements(ports[..i + 1]) == Elements(ports[..i]) + {ports[i]};
        if ports[i] in active {
          active := active - {ports[i]};
        }
      }
      assert ports[..|ports|] == ports;
    }

    method WatchContainer(event: WatchEvent)
      modifies this
      ensures Now() == Step(old(Now()), Watch(event))
    {
      match event {
        case Snapshot(containers) =>
          containerPorts := map[];
          for i := 0 to |containers|
            invariant containerPorts == Collect(containers[..i])
            invariant active == old(active) && proxies == old(proxies) && composeProjects == old(composeProjects)
          {
            assert containers[..i + 1][..i] == containers[..i];
            if containers[i].ports != [] {
              containerPorts := containerPorts[containers[i].name := containers[i].ports];
            }
          }
          assert containers[..|containers|] == containers;
        case Started(c) =>
          if c.ports != [] {
            containerPorts := containerPorts[c.name := c.ports];
          }
        case Exited(name) =>
          if name in containerPorts {
            var specs := containerPorts[name];
            containerPorts := containerPorts - {name};
            DropSpecs(specs);
          }
        case Unknown =>
      }
    }

    method DropSpecs(specs: seq<string>)
      modifies this`active
      ensures active == old(active) - HostPorts(specs)
    {
      hide ParsePortSpec;
      for i := 0 to |specs|
        invariant active == old(active) - HostPorts(specs[..i])
      {
        HostPortsNext(specs, i);
        var pf := ParsePortSpec(specs[i]);
        if pf.Some? {
          if pf.value.hostPort in active {
            active := active - {pf.value.hostPort};
          }
        }
      }
      assert specs[..|specs|] == specs;
    }

    method Serve(a: Action)
      modifies this
      ensures Now() == Step(old(Now()), a)
    {
      match a {
        case Cli(cmd) => var _ := HandleDaemonCmd(cmd);
        case Watch(event) => WatchContainer(event);
      }
    }
  }

  lemma HostPortsNext(specs: seq<string>, i: nat)
    requires i < |specs|
    ensures HostPorts(specs[..i + 1]) == HostPorts(specs[..i])
              + match ParsePortSpec(specs[i]) case None => {} case Some(pf) => {pf.hostPort}
  {
    hide ParsePortSpec;
    assert specs[..i + 1] == specs[..i] + [specs[i]];
  }

  // ---- One port ----------------------------------------------------------------------------

  /** Lingering: a proxy still runs, although the port is no longer listed. */
  datatype Status = Closed | Live(target: nat) | Lingering(target: nat)

  function StatusOf(w: World, p: nat): Status {
    if p in w.active then Live(w.active[p]) else if p in w.proxies then Lingering(w.proxies[p]) else Closed
  }

  /** Every active port has a proxy, with the same target. */
  ghost predicate Valid(w: World) {
    forall p <- w.active :: p in w.proxies && w.proxies[p] == w.active[p]
  }

  /** The ports of a compose project that is still tracked, from the history alone. */
  function ProjectPorts(actions: seq<Action>, project: string): Option<seq<nat>> {
    if actions == [] then None
    else match actions[|actions| - 1]
      case Cli(TrackComposeProject(p, ports)) =>
        if p == project then Some(ports) else ProjectPorts(actions[..|actions| - 1], project)
      case Cli(UnregisterComposePorts(p)) =>
        if p == project then None else ProjectPorts(actions[..|actions| - 1], project)
      case _ => ProjectPorts(actions[..|actions| - 1], project)
  }

  /** The last container of that name in a snapshot that has ports. */
  function PortsIn(containers: seq<Watched>, name: string): Option<seq<string>> {
    if containers == [] then None
    else
      var n := |containers| - 1;
      if containers[n].name == name && containers[n].ports != [] then Some(containers[n].ports)
      else PortsIn(containers[..n], name)
  }

  /** The ports of a container that has not exited, from the history alone. */
  function ContainerPorts(actions: seq<Action>, name: string): Option<seq<string>> {
    if actions == [] then None
    else match actions[|actions| - 1]
      case Watch(Snapshot(cs)) => PortsIn(cs, name)
      case Watch(Started(c)) =>
        if c.name == name && c.ports != [] then Some(c.ports) else ContainerPorts(actions[..|actions| - 1], name)
      case Watch(Exited(n)) => if n == name then None else ContainerPorts(actions[..|actions| - 1], name)
      case _ => ContainerPorts(actions[..|actions| - 1], name)
  }

  /** The action gives up the port by the compose or the exit path. */
  predicate Drops(before: seq<Action>, a: Action, p: nat) {
    match a
    case Cli(UnregisterComposePorts(project)) =>
      ProjectPorts(before, project).Some? && p in ProjectPorts(before, project).value
    case Watch(Exited(name)) =>
      ContainerPorts(before, name).Some? && p in HostPorts(ContainerPorts(before, name).value)
    case _ => false
  }

  predicate Registers(a: Action, p: nat) {
    a.Cli? && a.cmd.RegisterPort? && a.cmd.hostPort == p
  }

  predicate Unregisters(a: Action, p: nat) {
    a.Cli? && a.cmd.UnregisterPort? && a.cmd.hostPort == p
  }

  /** One port's life: registration opens it unless it is live, unregistration closes it when it is
      live, the other paths leave its proxy running. */
  function Life(forwards: seq<PortForward>, actions: seq<Action>, p: nat): Status {
    if actions == [] then
      (if p in Preregistered(forwards) then Live(Preregistered(forwards)[p]) else Closed)
    else
      var before, a := actions[..|actions| - 1], actions[|actions| - 1];
      var s := Life(forwards, before, p);
      if Registers(a, p) then (if s.Live? then s else Live(a.cmd.containerPort))
      else if Unregisters(a, p) then (if s.Live? then Closed else s)
      else if Drops(before, a, p) then (if s.Live? then Lingering(s.target) else s)
      else s
  }

  lemma {:induction false} CollectIsPortsIn(cs: seq<Watched>, name: string)
    ensures PortsIn(cs, name) == if name in Collect(cs) then Some(Collect(cs)[name]) else None
  {
    if cs != [] {
      CollectIsPortsIn(cs[..|cs| - 1], name);
    }
  }

  function At<T>(m: map<string, T>, k: string): Option<T> {
    if k in m then Some(m[k]) else None
  }

  lemma {:induction false} TrackedAsInHistory(forwards: seq<PortForward>, actions: seq<Action>, name: string)
    ensures ProjectPorts(actions, name) == At(Run(forwards, actions).composeProjects, name)
    ensures ContainerPorts(actions, name) == At(Run(forwards, actions).containerPorts, name)
  {
    hide HostPorts, Elements;
    if actions != [] {
      var a := actions[|actions| - 1];
      TrackedAsInHistory(forwards, actions[..|actions| - 1], name);
      if a.Watch? && a.event.Snapshot? {
        CollectIsPortsIn(a.event.containers, name);
      }
    }
  }

  /** The registry refines the lives of its ports, taken one by one. */
  lemma {:induction false} RegistryIsLives(forwards: seq<PortForward>, actions: seq<Action>, p: nat)
    ensures Valid(Run(forwards, actions))
    ensures StatusOf(Run(forwards, actions), p) == Life(forwards, actions, p)
  {
    hide ParsePortSpec, HostPorts, Collect, ProjectPorts, ContainerPorts;
    if actions != [] {
      var before, a := actions[..|actions| - 1], actions[|actions| - 1];
      RegistryIsLives(forwards, before, p);
      if a.Cli? && a.cmd.UnregisterComposePorts? {
        TrackedAsInHistory(forwards, before, a.cmd.project);
      } else if a.Watch? && a.event.Exited? {
        TrackedAsInHistory(forwards, before, a.event.name);
      }
    }
  }

  /** In every reachable state the handles without an active entry are exactly those of ports that
      were given up while live by the compose or the exit path, and not registered since. */
  lemma {:induction false} LingersSince(forwards: seq<PortForward>, actions: seq<Action>, p: nat)
    ensures Life(forwards, actions, p).Lingering? <==>
              exists k :: GivenUpAt(forwards, actions, p, k)
  {
    hide ParsePortSpec, HostPorts, Elements, ProjectPorts, ContainerPorts, Preregistered, GivenUpAt;
    if actions == [] {
      NeverGivenUp(forwards, p);
    } else {
      var n := |actions| - 1;
      LifeNext(forwards, actions, p);
      GivenUpRange(forwards, actions, p);
      GivenUpRange(forwards, actions[..n], p);
      LingersSince(forwards, actions[..n], p);
      forall k | 0 <= k < n
        ensures GivenUpAt(forwards, actions, p, k)
                <==> GivenUpAt(forwards, actions[..n], p, k) && !Registers(actions[n], p)
      {
        GivenUpEarlier(forwards, actions, p, k);
      }
      GivenUpNow(forwards, actions, p);
      if Life(forwards, actions, p).Lingering? && !GivenUpAt(forwards, actions, p, n) {
        var k :| GivenUpAt(forwards, actions[..n], p, k);
        assert GivenUpAt(forwards, actions, p, k);
      }
      hide Drops, Life, Registers;
    }
  }

  lemma GivenUpRange(forwards: seq<PortForward>, actions: seq<Action>, p: nat)
    ensures forall k :: GivenUpAt(forwards, actions, p, k) ==> 0 <= k < |actions|
  {
    hide Life, Drops, Registers;
  }

  lemma NeverGivenUp(forwards: seq<PortForward>, p: nat)
    ensures !Life(forwards, [], p).Lingering? && forall k :: !GivenUpAt(forwards, [], p, k)
  {
  }

  /** When the last action leaves a port lingering. */
  lemma LifeNext(forwards: seq<PortForward>, actions: seq<Action>, p: nat)
    requires actions != []
    ensures var n := |actions| - 1;
            var s, a := Life(forwards, actions[..n], p), actions[n];
            Life(forwards, actions, p).Lingering? <==>
              !Registers(a, p) && (s.Lingering? || (s.Live? && Drops(actions[..n], a, p)))
  {
    hide ParsePortSpec, HostPorts, ProjectPorts, ContainerPorts, Preregistered;
  }

  lemma GivenUpEarlier(forwards: seq<PortForward>, actions: seq<Action>, p: nat, k: nat)
    requires k < |actions| - 1
    ensures var n := |actions| - 1;
            GivenUpAt(forwards, actions, p, k)
            <==> GivenUpAt(forwards, actions[..n], p, k) && !Registers(actions[n], p)
  {
    var n := |actions| - 1;
    assert actions[..n][..k] == actions[..k];
    assert forall j :: 0 <= j < n ==> actions[..n][j] == actions[j];
    hide Life, Drops, Registers;
  }

  lemma GivenUpNow(forwards: seq<PortForward>, actions: seq<Action>, p: nat)
    requires actions != []
    ensures var n := |actions| - 1;
            GivenUpAt(forwards, actions, p, n)
            <==> Life(forwards, actions[..n], p).Live? && Drops(actions[..n], actions[n], p)
  {
    hide Life, Drops, Registers;
  }

  ghost predicate GivenUpAt(forwards: seq<PortForward>, actions: seq<Action>, p: nat, k: int) {
    && 0 <= k < |actions|
    && Life(forwards, actions[..k], p).Live? && Drops(actions[..k], actions[k], p)
    && forall j :: k < j < |actions| ==> !Registers(actions[j], p)
  }

  /** A live mapping is never retargeted: for the target to change, the port must first stop being
      live. */
  lemma {:induction false} NeverRetargeted(forwards: seq<PortForward>, actions: seq<Action>, p: nat, i: nat)
    requires i <= |actions|
    requires forall j :: i <= j <= |actions| ==> Life(forwards, actions[..j], p).Live?
    ensures Life(forwards, actions[..i], p) == Life(forwards, actions, p)
    decreases |actions|
  {
    assert actions[..|actions|] == actions;
    if i < |actions| {
      var n := |actions| - 1;
      assert forall j :: 0 <= j <= n ==> actions[..n][..j] == actions[..j];
      NeverRetargeted(forwards, actions[..n], p, i);
    }
  }

  /** Unregistering does not stop a lingering proxy; only a new registration replaces it. */
  lemma UnregisterLeavesLingering(forwards: seq<PortForward>, actions: seq<Action>, p: nat)
    requires Life(forwards, actions, p).Lingering?
    ensures Life(forwards, actions + [Cli(UnregisterPort(p))], p) == Life(forwards, actions, p)
  {
    assert (actions + [Cli(UnregisterPort(p))])[..|actions|] == actions;
  }

  /** Any run of the daemon: each port is where its own life has led it. */
  method RunDaemon(forwards: seq<PortForward>, actions: seq<Action>) returns (ps: PortState)
    ensures ps.Now() == Run(forwards, actions)
    ensures Valid(ps.Now())
    ensures forall p :: StatusOf(ps.Now(), p) == Life(forwards, actions, p)
  {
    ps := new PortState(forwards);
    for i := 0 to |actions|
      invariant fresh(ps)
      invariant ps.Now() == Run(forwards, actions[..i])
    {
      hide Step;
      assert actions[..i + 1][..i] == actions[..i];
      ps.Serve(actions[i]);
    }
    assert actions[..|actions|] == actions;
    RegistryIsLives(forwards, actions, 0);
    forall p: nat
      ensures StatusOf(ps.Now(), p) == Life(forwards, actions, p)
    {
      RegistryIsLives(forwards, actions, p);
    }
  }
}
