/** The proxy threads behind the daemon's registry of port forwards: when a registered port is really
    listened to, and by whom.

    Opening a forward starts a thread that binds the port at some later moment.  Dropping a handle
    sets its thread's shutdown flag and makes one connection to the port, so that the thread's
    accept returns; the thread ends when it next accepts a connection and sees the flag.  Threads,
    clients and the registry interleave freely. */
module PortListeners {
  import opened Ports
  import opened Wrappers

  datatype Phase = Starting | Listening | Ended

  datatype Thread = Thread(port: nat, target: nat, phase: Phase, shutdown: bool, backlog: nat)

  datatype State = State(
    boot: seq<PortForward>,           // --port arguments not yet opened
    w: World,
    handles: map<nat, nat>,           // the thread behind each entry of `w.proxies`
    threads: seq<Thread>,
    wake: Option<nat>)                // a drop under the lock that has yet to connect to its port

  datatype Event =
    | Boot
    | Registry(a: Action)
    | Bind(i: nat, ok: bool)
    | Connect(port: nat)
    | Wake
    | Accept(i: nat)

  function Begin(forwards: seq<PortForward>): State {
    State(forwards, World(map[], map[], map[], map[]), map[], [], None)
  }

  predicate Listens(t: Thread, p: nat) {
    t.port == p && t.phase.Listening?
  }

  /** Some thread holds the port. */
  ghost predicate Busy(threads: seq<Thread>, p: nat) {
    exists t <- threads :: Listens(t, p)
  }

  function Flag(threads: seq<Thread>, i: nat): seq<Thread> {
    if i < |threads| then threads[i := threads[i].(shutdown := true)] else threads
  }

  /** The handle of a port is dropped, if there is one. */
  function Drop(s: State, p: nat): State {
    if p in s.handles then s.(threads := Flag(s.threads, s.handles[p]), handles := s.handles - {p}, wake := Some(p))
    else s
  }

  /** The program starts the new thread just before it drops the old handle.  Both are one step here:
      what happens in between commutes with the drop, for the old thread can only do what it could
      have done before, and the new one what it still can do after: neither looks at the other's
      flag. */
  function Open(s: State, p: nat, target: nat): State {
    var s' := Drop(s, p);
    s'.(threads := s'.threads + [Thread(p, target, Starting, false, 0)], handles := s'.handles[p := |s'.threads|])
  }

  /** A connection for a port waits at the thread that holds it; without one it is refused. */
  function Arrive(threads: seq<Thread>, p: nat): (ts: seq<Thread>)
    ensures |ts| == |threads|
  {
    seq(|threads|, i requires 0 <= i < |threads| =>
      if Listens(threads[i], p) then threads[i].(backlog := threads[i].backlog + 1) else threads[i])
  }

  function Decide(s: State, a: Action): State {
    match a
    case Cli(RegisterPort(h, c)) => if h in s.w.active then s else Open(s, h, c)
    case Cli(UnregisterPort(h)) => if h in s.w.active then Drop(s, h) else s
    case _ => s
  }

  ghost predicate Enabled(s: State, e: Event) {
    match e
    case Boot => s.boot != [] && s.wake.None?
    case Registry(_) => s.boot == [] && s.wake.None?
    case Bind(i, ok) => i < |s.threads| && s.threads[i].phase.Starting? && (ok ==> !Busy(s.threads, s.threads[i].port))
    case Connect(_) => true
    case Wake => s.wake.Some?
    case Accept(i) => i < |s.threads| && s.threads[i].phase.Listening? && s.threads[i].backlog > 0
  }

  ghost function Next(s: State, e: Event): State
    requires Enabled(s, e)
  {
    match e
    case Boot =>
      var pf := s.boot[0];
      Open(s, pf.hostPort, pf.containerPort).(boot := s.boot[1..],
        w := s.w.(proxies := s.w.proxies[pf.hostPort := pf.containerPort],
                  active := s.w.active[pf.hostPort := pf.containerPort]))
    case Registry(a) => Decide(s, a).(w := Step(s.w, a))
    case Bind(i, ok) => s.(threads := s.threads[i := s.threads[i].(phase := if ok then Listening else Ended)])
    case Connect(p) => s.(threads := Arrive(s.threads, p))
    case Wake => s.(threads := Arrive(s.threads, s.wake.value), wake := None)
    case Accept(i) =>
      var t := s.threads[i];
      s.(threads := s.threads[i := if t.shutdown then t.(phase := Ended) else t.(backlog := t.backlog - 1)])
  }

  ghost predicate Happens(forwards: seq<PortForward>, ss: seq<State>, es: seq<Event>) {
    && |ss| == |es| + 1 && ss[0] == Begin(forwards)
    && forall k :: 0 <= k < |es| ==> Enabled(ss[k], es[k]) && ss[k + 1] == Next(ss[k], es[k])
  }

  // ---- The registry is the one without threads -------------------------------------------

  function Decisions(es: seq<Event>): seq<Action> {
    if es == [] then []
    else Decisions(es[..|es| - 1]) + if es[|es| - 1].Registry? then [es[|es| - 1].a] else []
  }

  function Boots(es: seq<Event>): nat {
    if es == [] then 0 else Boots(es[..|es| - 1]) + if es[|es| - 1].Boot? then 1 else 0
  }

  /** The --port arguments opened so far. */
  function Booted(forwards: seq<PortForward>, es: seq<Event>): seq<PortForward> {
    if Boots(es) <= |forwards| then forwards[..Boots(es)] else forwards
  }

  lemma OthersKept(s: State, a: Action, p: nat, target: nat)
    ensures Decide(s, a).boot == s.boot && Open(s, p, target).boot == s.boot && Open(s, p, target).w == s.w
  {
  }

  /** First the arguments are opened, then commands and events are served as if there were no
      threads. */
  ghost predicate GoesOn(forwards: seq<PortForward>, s: State, es: seq<Event>) {
    && Boots(es) <= |forwards| && s.boot == forwards[Boots(es)..]
    && (Decisions(es) != [] ==> s.boot == [])
    && s.w == Run(Booted(forwards, es), Decisions(es))
  }

  lemma BootGoesOn(forwards: seq<PortForward>, s: State, es: seq<Event>)
    requires GoesOn(forwards, s, es) && Enabled(s, Boot)
    ensures GoesOn(forwards, Next(s, Boot), es + [Boot])
  {
    hide Open;
    OthersKept(s, Watch(Unknown), s.boot[0].hostPort, s.boot[0].containerPort);
    Snoc(es, Boot);
    var k := Boots(es);
    assert forwards[..k + 1][..k] == forwards[..k] && forwards[k] == s.boot[0];
  }

  lemma RegistryGoesOn(forwards: seq<PortForward>, s: State, es: seq<Event>, a: Action)
    requires GoesOn(forwards, s, es) && Enabled(s, Registry(a))
    ensures GoesOn(forwards, Next(s, Registry(a)), es + [Registry(a)])
  {
    hide Decide, Ports.Step;
    OthersKept(s, a, 0, 0);
    Snoc(es, Registry(a));
    var ds := Decisions(es);
    assert (ds + [a])[..|ds|] == ds && (ds + [a])[|ds|] == a;
  }

  lemma Snoc(es: seq<Event>, e: Event)
    ensures Boots(es + [e]) == Boots(es) + if e.Boot? then 1 else 0
    ensures Decisions(es + [e]) == Decisions(es) + if e.Registry? then [e.a] else []
  {
    assert (es + [e])[..|es|] == es;
  }

  lemma ThreadGoesOn(forwards: seq<PortForward>, s: State, es: seq<Event>, e: Event)
    requires GoesOn(forwards, s, es) && Enabled(s, e) && !e.Boot? && !e.Registry?
    ensures GoesOn(forwards, Next(s, e), es + [e])
  {
    hide Run, Arrive;
    Snoc(es, e);
    assert Decisions(es) + [] == Decisions(es);
  }

  lemma {:induction false} RegistryIsRun(forwards: seq<PortForward>, ss: seq<State>, es: seq<Event>, n: nat)
    requires Happens(forwards, ss, es) && n <= |es|
    ensures GoesOn(forwards, ss[n], es[..n])
  {
    if n == 0 {
      assert forwards[0..] == forwards && forwards[..0] == [];
    } else {
      RegistryIsRun(forwards, ss, es, n - 1);
      var e := es[n - 1];
      assert es[..n] == es[..n - 1] + [e];
      hide GoesOn, Next, Enabled;
      match e
      case Boot => BootGoesOn(forwards, ss[n - 1], es[..n - 1]);
      case Registry(a) => RegistryGoesOn(forwards, ss[n - 1], es[..n - 1], a);
      case _ => ThreadGoesOn(forwards, ss[n - 1], es[..n - 1], e);
    }
  }

  // ---- What every run keeps --------------------------------------------------------------

  ghost predicate HandlesHold(w: World, handles: map<nat, nat>, threads: seq<Thread>) {
    && handles.Keys == w.proxies.Keys
    && forall p <- handles ::
         && handles[p] < |threads| && !threads[handles[p]].shutdown
         && threads[handles[p]].port == p && threads[handles[p]].target == w.proxies[p]
  }

  /** A thread that has not been told to stop is the one behind its port's handle. */
  ghost predicate OthersStop(handles: map<nat, nat>, threads: seq<Thread>) {
    forall i: nat :: i < |threads| && !threads[i].shutdown ==>
      threads[i].port in handles && handles[threads[i].port] == i
  }

  ghost predicate OneListener(threads: seq<Thread>) {
    forall i, j :: 0 <= i < j < |threads| && threads[i].phase.Listening? && threads[j].phase.Listening? ==>
      threads[i].port != threads[j].port
  }

  ghost predicate Inv(s: State) {
    Valid(s.w) && HandlesHold(s.w, s.handles, s.threads) && OthersStop(s.handles, s.threads) && OneListener(s.threads)
  }

  /** Threads that keep port, target and flag, and do not begin to listen. */
  ghost predicate Similar(ts: seq<Thread>, ts': seq<Thread>) {
    |ts| == |ts'| && forall i :: 0 <= i < |ts| ==>
      && ts'[i].port == ts[i].port && ts'[i].target == ts[i].target && ts'[i].shutdown == ts[i].shutdown
      && (ts'[i].phase.Listening? ==> ts[i].phase.Listening?)
  }

  lemma SimilarInv(s: State, s': State)
    requires Inv(s) && Similar(s.threads, s'.threads) && s'.w == s.w && s'.handles == s.handles
    ensures Inv(s')
  {
    hide Valid;
  }

  lemma BoundInv(s: State, i: nat)
    requires Inv(s) && Enabled(s, Bind(i, true))
    ensures Inv(Next(s, Bind(i, true)))
  {
    hide Valid;
    var ts := s.threads;
    forall j | 0 <= j < |ts| && j != i && ts[j].phase.Listening?
      ensures ts[j].port != ts[i].port
    {
      assert ts[j] in ts;
      assert Listens(ts[j], ts[j].port);
    }
  }

  lemma DroppedInv(s: State, p: nat)
    requires Inv(s)
    ensures var s' := Drop(s, p);
            && OthersStop(s'.handles, s'.threads) && OneListener(s'.threads) && |s'.threads| == |s.threads|
            && p !in s'.handles && HandlesHold(s.w.(proxies := s.w.proxies - {p}), s'.handles, s'.threads)
  {
    hide Valid;
    if p !in s.handles {
      assert s.w.proxies - {p} == s.w.proxies;
    } else {
      var s', i := Drop(s, p), s.handles[p];
      assert s'.handles.Keys == s.handles.Keys - {p};
      forall q | q in s'.handles
        ensures s'.handles[q] != i
      {
        assert s.threads[s.handles[q]].port == q;
      }
    }
  }

  lemma OpenedInv(s: State, p: nat, target: nat, w': World)
    requires Inv(s) && w'.proxies == s.w.proxies[p := target]
    ensures var s' := Open(s, p, target);
            HandlesHold(w', s'.handles, s'.threads) && OthersStop(s'.handles, s'.threads) && OneListener(s'.threads)
  {
    hide Valid, HandlesHold, OthersStop, OneListener, Drop;
    DroppedInv(s, p);
    var d := Drop(s, p);
    ThreadAdded(s.w.(proxies := s.w.proxies - {p}), w', d.handles, d.threads, p, target);
  }

  lemma ThreadAdded(w: World, w': World, handles: map<nat, nat>, threads: seq<Thread>, p: nat, target: nat)
    requires HandlesHold(w, handles, threads) && OthersStop(handles, threads) && OneListener(threads)
    requires p !in handles && w'.proxies == w.proxies[p := target]
    ensures var threads', handles' := threads + [Thread(p, target, Starting, false, 0)], handles[p := |threads|];
            HandlesHold(w', handles', threads') && OthersStop(handles', threads') && OneListener(threads')
  {
  }

  lemma BootInv(s: State)
    requires Inv(s) && Enabled(s, Boot)
    ensures Inv(Next(s, Boot))
  {
    var pf := s.boot[0];
    var w' := s.w.(proxies := s.w.proxies[pf.hostPort := pf.containerPort],
                   active := s.w.active[pf.hostPort := pf.containerPort]);
    OpenedInv(s, pf.hostPort, pf.containerPort, w');
    hide Open, HandlesHold, OthersStop, OneListener;
  }

  lemma StepValid(w: World, a: Action)
    requires Valid(w)
    ensures Valid(Step(w, a))
    ensures !(a.Cli? && (a.cmd.RegisterPort? || a.cmd.UnregisterPort?)) ==> Step(w, a).proxies == w.proxies
  {
    hide Collect, HostPorts, Elements;
  }

  lemma SameProxies(w: World, w': World, handles: map<nat, nat>, threads: seq<Thread>)
    requires HandlesHold(w, handles, threads) && w'.proxies == w.proxies
    ensures HandlesHold(w', handles, threads)
  {
  }

  lemma RegistryInv(s: State, a: Action)
    requires Inv(s) && Enabled(s, Registry(a))
    ensures Inv(Next(s, Registry(a)))
  {
    StepValid(s.w, a);
    if a.Cli? && a.cmd.RegisterPort? {
      var h, c := a.cmd.hostPort, a.cmd.containerPort;
      if h !in s.w.active {
        OpenedInv(s, h, c, Step(s.w, a));
      }
      hide Open, HandlesHold, OthersStop, OneListener, Valid;
    } else if a.Cli? && a.cmd.UnregisterPort? {
      var h := a.cmd.hostPort;
      if h in s.w.active {
        DroppedInv(s, h);
        SameProxies(s.w.(proxies := s.w.proxies - {h}), Step(s.w, a), Drop(s, h).handles, Drop(s, h).threads);
      }
      hide Drop, HandlesHold, OthersStop, OneListener, Valid;
    } else {
      SameProxies(s.w, Step(s.w, a), s.handles, s.threads);
      hide Ports.Step, HandlesHold, OthersStop, OneListener, Valid;
    }
  }

  lemma NextInv(s: State, e: Event)
    requires Inv(s) && Enabled(s, e)
    ensures Inv(Next(s, e))
  {
    match e
    case Boot => BootInv(s);
    case Registry(a) => RegistryInv(s, a);
    case Bind(i, ok) =>
      if ok {
        BoundInv(s, i);
      } else {
        SimilarInv(s, Next(s, e));
      }
    case _ => SimilarInv(s, Next(s, e));
  }

  lemma {:induction false} AlwaysInv(forwards: seq<PortForward>, ss: seq<State>, es: seq<Event>, n: nat)
    requires Happens(forwards, ss, es) && n <= |es|
    ensures Inv(ss[n])
  {
    hide Next, Enabled;
    if n == 0 {
      hide Begin;
      BeginInv(forwards);
    } else {
      AlwaysInv(forwards, ss, es, n - 1);
      NextInv(ss[n - 1], es[n - 1]);
    }
  }

  lemma BeginInv(forwards: seq<PortForward>)
    ensures Inv(Begin(forwards))
  {
  }

  /** Only the thread behind a port's handle relays, and it relays to the registered target; a port
      that is not registered relays nothing. */
  lemma RelaysRegistered(forwards: seq<PortForward>, ss: seq<State>, es: seq<Event>, n: nat)
    requires Happens(forwards, ss, es) && n < |es| && es[n].Accept? && !ss[n].threads[es[n].i].shutdown
    ensures var t := ss[n].threads[es[n].i];
            var status := Life(Booted(forwards, es[..n]), Decisions(es[..n]), t.port);
            && (status == Live(t.target) || status == Lingering(t.target))
            && t.port in ss[n].handles && ss[n].handles[t.port] == es[n].i
  {
    AlwaysInv(forwards, ss, es, n);
    RegistryIsRun(forwards, ss, es, n);
    RegistryIsLives(Booted(forwards, es[..n]), Decisions(es[..n]), ss[n].threads[es[n].i].port);
    hide Life, Run, Decisions, Booted, OneListener;
  }

  lemma OnePerPort(forwards: seq<PortForward>, ss: seq<State>, es: seq<Event>, n: nat)
    requires Happens(forwards, ss, es) && n <= |es|
    ensures OneListener(ss[n].threads)
  {
    AlwaysInv(forwards, ss, es, n);
  }

  // ---- When a live port is listened to ---------------------------------------------------

  /** One step of one thread. */
  lemma ThreadNext(s: State, e: Event, i: nat)
    requires Enabled(s, e)
    ensures var s' := Next(s, e);
            && |s.threads| <= |s'.threads|
            && (i < |s.threads| ==>
                  var t, t' := s.threads[i], s'.threads[i];
                  && t'.port == t.port && (t.shutdown ==> t'.shutdown)
                  && t'.phase == if e.Bind? && e.i == i then (if e.ok then Listening else Ended)
                                 else if e.Accept? && e.i == i && t.shutdown then Ended
                                 else t.phase)
            && (|s.threads| <= i < |s'.threads| ==> s'.threads[i].phase.Starting?)
  {
  }

  /** A thread's phase tells how its one bind went. */
  ghost predicate AsBound(threads: seq<Thread>, es: seq<Event>, i: nat) {
    if i >= |threads| || threads[i].phase.Starting? then Bind(i, true) !in es && Bind(i, false) !in es
    else
      && (Bind(i, true) in es <==> Bind(i, false) !in es)
      && (threads[i].phase.Listening? ==> Bind(i, true) in es)
      && (threads[i].phase.Ended? && !threads[i].shutdown ==> Bind(i, false) in es)
  }

  lemma {:induction false} PhaseTells(forwards: seq<PortForward>, ss: seq<State>, es: seq<Event>, n: nat, i: nat)
    requires Happens(forwards, ss, es) && n <= |es|
    ensures AsBound(ss[n].threads, es[..n], i)
  {
    if n > 0 {
      PhaseTells(forwards, ss, es, n - 1, i);
      ThreadNext(ss[n - 1], es[n - 1], i);
      assert es[..n] == es[..n - 1] + [es[n - 1]];
      hide Next;
    }
  }

  /** The system refuses a port only while somebody holds it. */
  ghost predicate Willing(ss: seq<State>, es: seq<Event>)
    requires |ss| == |es| + 1
  {
    forall k :: 0 <= k < |es| && es[k].Bind? && !es[k].ok && es[k].i < |ss[k].threads| ==>
      Busy(ss[k].threads, ss[k].threads[es[k].i].port)
  }

  /** A thread that was told to stop holds the port at the moment at which thread i tries to bind. */
  ghost predicate BehindOld(ss: seq<State>, es: seq<Event>, k: int, i: nat, p: nat)
    requires |ss| == |es| + 1
  {
    0 <= k < |es| && es[k] == Bind(i, false) && exists t <- ss[k].threads :: Listens(t, p) && t.shutdown
  }

  lemma HandleFacts(s: State, p: nat)
    requires Inv(s) && p in s.handles
    ensures s.handles[p] < |s.threads| && s.threads[s.handles[p]].port == p && !s.threads[s.handles[p]].shutdown
  {
    hide Valid;
  }

  lemma ThreadLater(forwards: seq<PortForward>, ss: seq<State>, es: seq<Event>, n: nat, i: nat)
    requires Happens(forwards, ss, es) && n < |es| && i < |ss[n].threads|
    ensures i < |ss[n + 1].threads| && ss[n + 1].threads[i].port == ss[n].threads[i].port
    ensures ss[n].threads[i].shutdown ==> ss[n + 1].threads[i].shutdown
  {
    hide Next, Enabled;
    ThreadNext(ss[n], es[n], i);
  }

  lemma {:induction false} EarlierThread(forwards: seq<PortForward>, ss: seq<State>, es: seq<Event>,
                                         k: nat, n: nat, i: nat)
    requires Happens(forwards, ss, es) && k <= n <= |es| && i < |ss[k].threads|
    ensures i < |ss[n].threads| && ss[n].threads[i].port == ss[k].threads[i].port
    ensures ss[k].threads[i].shutdown ==> ss[n].threads[i].shutdown
    decreases n
  {
    if k < n {
      EarlierThread(forwards, ss, es, k, n - 1, i);
      ThreadLater(forwards, ss, es, n - 1, i);
    }
  }

  lemma OtherStops(s: State, i: nat, j: nat)
    requires Inv(s) && i < |s.threads| && j < |s.threads| && s.threads[i].port == s.threads[j].port
    requires i != j && !s.threads[i].shutdown
    ensures s.threads[j].shutdown
  {
  }

  lemma FailsBehindOld(forwards: seq<PortForward>, ss: seq<State>, es: seq<Event>, k: nat, n: nat, i: nat)
    requires Happens(forwards, ss, es) && Willing(ss, es) && k < n <= |es| && es[k] == Bind(i, false)
    requires i < |ss[n].threads| && !ss[n].threads[i].shutdown
    ensures BehindOld(ss, es, k, i, ss[n].threads[i].port)
  {
    hide Next;
    AlwaysInv(forwards, ss, es, k);
    EarlierThread(forwards, ss, es, k, n, i);
    var ts := ss[k].threads;
    assert Enabled(ss[k], es[k]);
    var t :| t in ts && Listens(t, ts[i].port);
    var j :| 0 <= j < |ts| && ts[j] == t;
    OtherStops(ss[k], i, j);
  }

  /** Whether a registered port is listened to depends on its one bind alone; on a willing system
      that bind fails exactly when a thread that was told to stop still holds the port. */
  lemma ListensExactly(forwards: seq<PortForward>, ss: seq<State>, es: seq<Event>, n: nat, p: nat)
    requires Happens(forwards, ss, es) && n <= |es| && p in ss[n].handles
    ensures ss[n].handles[p] < |ss[n].threads|
    ensures var i := ss[n].handles[p];
            && (Listens(ss[n].threads[i], p) <==> Bind(i, true) in es[..n])
            && (ss[n].threads[i].phase.Ended? <==> Bind(i, false) in es[..n])
            && (Willing(ss, es) ==>
                  (ss[n].threads[i].phase.Ended? <==> exists k :: k < n && BehindOld(ss, es, k, i, p)))
  {
    AlwaysInv(forwards, ss, es, n);
    HandleFacts(ss[n], p);
    hide Inv, Willing, BehindOld, Happens;
    var i := ss[n].handles[p];
    PhaseTells(forwards, ss, es, n, i);
    if Willing(ss, es) && Bind(i, false) in es[..n] {
      var k :| 0 <= k < n && es[..n][k] == Bind(i, false);
      FailsBehindOld(forwards, ss, es, k, n, i);
    }
    forall k | k < n && |ss| == |es| + 1 && BehindOld(ss, es, k, i, p)
      ensures Bind(i, false) in es[..n]
    {
      BehindOldIn(ss, es, k, n, i, p);
    }
  }

  lemma BehindOldIn(ss: seq<State>, es: seq<Event>, k: int, n: nat, i: nat, p: nat)
    requires |ss| == |es| + 1 && k < n <= |es| && BehindOld(ss, es, k, i, p)
    ensures Bind(i, false) in es[..n]
  {
    assert es[..n][k] == Bind(i, false);
  }

  /** The handle of a live port stays as long as the port is live. */
  lemma HandleStays(s: State, e: Event, p: nat)
    requires Enabled(s, e) && s.boot == [] && p in s.w.active && p in s.handles && p in Next(s, e).w.active
    ensures p in Next(s, e).handles && Next(s, e).handles[p] == s.handles[p] && Next(s, e).boot == []
  {
  }

  /** A live port that nobody listens to stays so for as long as it is live, whatever else is
      registered and however often the same registration is answered with Ok. */
  lemma {:induction false} DeafStays(forwards: seq<PortForward>, ss: seq<State>, es: seq<Event>, m: nat, n: nat, p: nat)
    requires Happens(forwards, ss, es) && m <= n <= |es| && ss[m].boot == []
    requires p in ss[m].handles && ss[m].handles[p] < |ss[m].threads| && ss[m].threads[ss[m].handles[p]].phase.Ended?
    requires forall k :: m <= k <= n ==> p in ss[k].w.active
    ensures ss[n].boot == [] && p in ss[n].handles && ss[n].handles[p] == ss[m].handles[p] < |ss[n].threads|
    ensures ss[n].threads[ss[n].handles[p]].phase.Ended?
    ensures n < |es| && es[n].Accept? && ss[n].threads[es[n].i].port == p ==> ss[n].threads[es[n].i].shutdown
    decreases n
  {
    hide Next;
    if m < n {
      DeafStays(forwards, ss, es, m, n - 1, p);
      assert ss[n] == Next(ss[n - 1], es[n - 1]) && p in ss[n].w.active && p in ss[n - 1].w.active;
      HandleStays(ss[n - 1], es[n - 1], p);
      ThreadNext(ss[n - 1], es[n - 1], ss[m].handles[p]);
    }
    AlwaysInv(forwards, ss, es, n);
  }

  // ---- Registering again is a race -------------------------------------------------------

  ghost predicate Leads(s: State, es: seq<Event>, s': State)
    decreases |es|
  {
    if es == [] then s' == s else Enabled(s, es[0]) && Leads(Next(s, es[0]), es[1..], s')
  }

  /** When a lingering port is registered again, its new thread may try to bind before or after the
      old one has let go: the registry looks the same afterwards, but in the first case nobody
      listens. */
  lemma RebindRace(s: State, p: nat, c: nat) returns (deaf: State, heard: State)
    requires Inv(s) && s.boot == [] && s.wake == None && p !in s.w.active && p in s.handles
    requires s.handles[p] < |s.threads| && s.threads[s.handles[p]].phase.Listening?
    ensures var register, last, next := Registry(Cli(RegisterPort(p, c))), s.handles[p], |s.threads|;
            && Leads(s, [register, Bind(next, false), Wake, Accept(last)], deaf)
            && Leads(s, [register, Wake, Accept(last), Bind(next, true)], heard)
            && Busy(Next(s, register).threads, p)
    ensures deaf.w == heard.w && StatusOf(deaf.w, p) == Live(c)
    ensures !Busy(deaf.threads, p) && Busy(heard.threads, p)
  {
    var register, last, next := Registry(Cli(RegisterPort(p, c))), s.handles[p], |s.threads|;
    var s1 := Next(s, register);
    Registered(s, p, c);
    NobodyElse(s, p);
    hide OneListener, OthersStop, HandlesHold, Valid, Inv;
    var d2, d3, h2, h3: State;
    d2, d3, deaf := DeafOrder(s1, p, last, next);
    h2, h3, heard := HeardOrder(s1, p, last, next);
    hide Next, Enabled, Busy, Listens;
    Four(s, register, Bind(next, false), Wake, Accept(last), s1, d2, d3, deaf);
    Four(s, register, Wake, Accept(last), Bind(next, true), s1, h2, h3, heard);
  }

  /** The old thread of the port holds it, was told to stop, and waits to be woken; a new one is about
      to bind. */
  ghost predicate Handover(s: State, p: nat, last: nat, next: nat) {
    && last < |s.threads| && next < |s.threads| && s.wake == Some(p)
    && Listens(s.threads[last], p) && s.threads[last].shutdown
    && s.threads[next].port == p && s.threads[next].phase.Starting?
    && forall i :: 0 <= i < |s.threads| && Listens(s.threads[i], p) ==> i == last
  }

  lemma DeafOrder(s: State, p: nat, last: nat, next: nat) returns (s2: State, s3: State, s4: State)
    requires Handover(s, p, last, next)
    ensures Enabled(s, Bind(next, false)) && s2 == Next(s, Bind(next, false))
    ensures Enabled(s2, Wake) && s3 == Next(s2, Wake)
    ensures Enabled(s3, Accept(last)) && s4 == Next(s3, Accept(last))
    ensures Busy(s.threads, p) && !Busy(s4.threads, p) && s4.w == s.w
  {
    assert s.threads[last] in s.threads;
    s2 := Next(s, Bind(next, false));
    s3 := Next(s2, Wake);
    s4 := Next(s3, Accept(last));
  }

  lemma HeardOrder(s: State, p: nat, last: nat, next: nat) returns (s2: State, s3: State, s4: State)
    requires Handover(s, p, last, next)
    ensures Enabled(s, Wake) && s2 == Next(s, Wake)
    ensures Enabled(s2, Accept(last)) && s3 == Next(s2, Accept(last))
    ensures Enabled(s3, Bind(next, true)) && s4 == Next(s3, Bind(next, true))
    ensures Busy(s4.threads, p) && s4.w == s.w
  {
    s2 := Next(s, Wake);
    s3 := Next(s2, Accept(last));
    assert !Busy(s3.threads, p);
    s4 := Next(s3, Bind(next, true));
    assert s4.threads[next] in s4.threads;
  }

  lemma Registered(s: State, p: nat, c: nat)
    requires s.boot == [] && s.wake == None && p !in s.w.active && p in s.handles && s.handles[p] < |s.threads|
    ensures var s1 := Next(s, Registry(Cli(RegisterPort(p, c))));
            && s1.threads == Flag(s.threads, s.handles[p]) + [Thread(p, c, Starting, false, 0)]
            && s1.wake == Some(p) && s1.boot == [] && StatusOf(s1.w, p) == Live(c)
  {
  }

  /** While the handle's thread listens, no other thread of the port does. */
  lemma NobodyElse(s: State, p: nat)
    requires Inv(s) && p in s.handles && s.handles[p] < |s.threads| && s.threads[s.handles[p]].phase.Listening?
    ensures forall i :: 0 <= i < |s.threads| && Listens(s.threads[i], p) ==> i == s.handles[p]
  {
    HandleFacts(s, p);
  }

  lemma Four(s: State, a: Event, b: Event, c: Event, d: Event, s1: State, s2: State, s3: State, s4: State)
    requires Enabled(s, a) && s1 == Next(s, a) && Enabled(s1, b) && s2 == Next(s1, b)
    requires Enabled(s2, c) && s3 == Next(s2, c) && Enabled(s3, d) && s4 == Next(s3, d)
    ensures Leads(s, [a, b, c, d], s4)
  {
    hide Enabled, Next;
    assert [a, b, c, d][1..] == [b, c, d] && [b, c, d][1..] == [c, d] && [c, d][1..] == [d];
    assert Leads(s4, [], s4);
    assert [d][1..] == [];
    assert Leads(s3, [d], s4);
    assert Leads(s2, [c, d], s4);
    assert Leads(s1, [b, c, d], s4);
  }

  lemma HappensSnoc(forwards: seq<PortForward>, ss: seq<State>, es: seq<Event>, e: Event)
    requires Happens(forwards, ss, es) && Enabled(ss[|es|], e)
    ensures Happens(forwards, ss + [Next(ss[|es|], e)], es + [e])
  {
    hide Next, Enabled;
  }

  lemma {:induction false} LeadsOn(forwards: seq<PortForward>, ss: seq<State>, es: seq<Event>,
                                   more: seq<Event>, s': State)
    returns (ss': seq<State>)
    requires Happens(forwards, ss, es) && Leads(ss[|es|], more, s')
    ensures Happens(forwards, ss', es + more) && ss'[|es + more|] == s'
    decreases |more|
  {
    hide Next, Enabled, Happens;
    if more == [] {
      assert es + more == es;
      ss' := ss;
    } else {
      HappensSnoc(forwards, ss, es, more[0]);
      assert es + more == es + [more[0]] + more[1..];
      HasStates(forwards, ss, es);
      ss' := LeadsOn(forwards, ss + [Next(ss[|es|], more[0])], es + [more[0]], more[1..], s');
    }
  }

  lemma HasStates(forwards: seq<PortForward>, ss: seq<State>, es: seq<Event>)
    requires Happens(forwards, ss, es)
    ensures |ss| == |es| + 1
  {
  }

  /** A compose project that comes down and up again can leave its port registered, with every command
      answered Ok, and nobody listening. */
  lemma LiveButDeaf(p: nat, c: nat, project: string) returns (ss: seq<State>)
    ensures var up, down := Registry(Cli(RegisterPort(p, c))), Registry(Cli(UnregisterComposePorts(project)));
            var es := [up, Bind(0, true), Registry(Cli(TrackComposeProject(project, [p]))), down]
                      + [up, Bind(1, false), Wake, Accept(0)];
            Happens([], ss, es) && StatusOf(ss[|es|].w, p) == Live(c) && !Busy(ss[|es|].threads, p)
  {
    var up, track := Registry(Cli(RegisterPort(p, c))), Registry(Cli(TrackComposeProject(project, [p])));
    var down := Registry(Cli(UnregisterComposePorts(project)));
    var s, first := Begin([]), [up, Bind(0, true), track, down];
    var s1, s2, s3, s4 := ComposeLifts(p, c, project);
    Four(s, up, Bind(0, true), track, down, s1, s2, s3, s4);
    assert Happens([], [s], []);
    ss := LeadsOn([], [s], [], first, s4);
    assert [] + first == first;
    AlwaysInv([], ss, first, |first|);
    var deaf, heard := RebindRace(s4, p, c);
    ss := LeadsOn([], ss, first, [up, Bind(1, false), Wake, Accept(0)], deaf);
  }

  lemma ComposeLifts(p: nat, c: nat, project: string) returns (s1: State, s2: State, s3: State, s4: State)
    ensures var up, down := Registry(Cli(RegisterPort(p, c))), Registry(Cli(UnregisterComposePorts(project)));
            var track := Registry(Cli(TrackComposeProject(project, [p])));
            && Enabled(Begin([]), up) && s1 == Next(Begin([]), up)
            && Enabled(s1, Bind(0, true)) && s2 == Next(s1, Bind(0, true))
            && Enabled(s2, track) && s3 == Next(s2, track)
            && Enabled(s3, down) && s4 == Next(s3, down)
    ensures s4.boot == [] && s4.wake == None && p !in s4.w.active && s4.handles == map[p := 0]
    ensures s4.threads == [Thread(p, c, Listening, false, 0)]
  {
    s1 := Next(Begin([]), Registry(Cli(RegisterPort(p, c))));
    assert s1.threads == [Thread(p, c, Starting, false, 0)] && s1.handles == map[p := 0];
    s2 := Next(s1, Bind(0, true));
    assert s2.threads == [Thread(p, c, Listening, false, 0)];
    s3 := Next(s2, Registry(Cli(TrackComposeProject(project, [p]))));
    s4 := Next(s3, Registry(Cli(UnregisterComposePorts(project))));
    assert p in Elements([p]);
  }
}
