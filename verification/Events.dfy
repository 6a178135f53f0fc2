/** The container event stream: the poller's diff of two snapshots, and its broadcast over
    bounded channels. */
module Events {
  import opened Wrappers

  datatype Container = Container(name: string, status: string, pid: int, rootfs: string, startedAt: string,
                                 exitCode: Option<int>, ports: seq<string>)

  datatype Event = Started(container: Container) | Exited(name: string, exitCode: Option<int>)

  predicate Runs(c: Container) {
    c.status == "running"
  }

  /** The first container of that name. */
  function Find(cs: seq<Container>, name: string): Option<Container> {
    if cs == [] then None else if cs[0].name == name then Some(cs[0]) else Find(cs[1..], name)
  }

  function FindLast(cs: seq<Container>, name: string): Option<Container> {
    if cs == [] then None
    else match FindLast(cs[1..], name)
      case Some(c) => Some(c)
      case None => if cs[0].name == name then Some(cs[0]) else None
  }

  function Running(cs: seq<Container>): set<string> {
    set c | c in cs && Runs(c) :: c.name
  }

  predicate Distinct(cs: seq<Container>) {
    forall i, j :: 0 <= i < j < |cs| ==> cs[i].name != cs[j].name
  }

  // ---- The diff --------------------------------------------------------------------------

  function Arrival(prev: seq<Container>, c: Container): seq<Event> {
    match Find(prev, c.name)
    case None => if Runs(c) then [Started(c)] else [Started(c), Exited(c.name, c.exitCode)]
    case Some(p) => if !Runs(p) && Runs(c) then [Started(c)] else []
  }

  function Departure(current: seq<Container>, p: Container): seq<Event> {
    match Find(current, p.name)
    case None => [Exited(p.name, p.exitCode)]
    case Some(c) => if Runs(p) && !Runs(c) then [Exited(c.name, c.exitCode)] else []
  }

  function Arrivals(prev: seq<Container>, current: seq<Container>): seq<Event> {
    if current == [] then [] else Arrival(prev, current[0]) + Arrivals(prev, current[1..])
  }

  function Departures(prev: seq<Container>, current: seq<Container>): seq<Event> {
    if prev == [] then [] else Departure(current, prev[0]) + Departures(prev[1..], current)
  }

  function Diff(prev: seq<Container>, current: seq<Container>): seq<Event> {
    Arrivals(prev, current) + Departures(prev, current)
  }

  method FindByName(cs: seq<Container>, name: string) returns (found: Option<Container>)
    ensures found == Find(cs, name)
  {
    for i := 0 to |cs|
      invariant Find(cs, name) == Find(cs[i..], name)
    {
      if cs[i].name == name {
        return Some(cs[i]);
      }
    }
    return None;
  }

  lemma {:induction false} ArrivalsSnoc(prev: seq<Container>, cs: seq<Container>, c: Container)
    ensures Arrivals(prev, cs + [c]) == Arrivals(prev, cs) + Arrival(prev, c)
  {
    if cs == [] {
      assert cs + [c] == [c];
    } else {
      assert (cs + [c])[1..] == cs[1..] + [c];
      ArrivalsSnoc(prev, cs[1..], c);
    }
  }

  lemma {:induction false} DeparturesSnoc(ps: seq<Container>, p: Container, current: seq<Container>)
    ensures Departures(ps + [p], current) == Departures(ps, current) + Departure(current, p)
  {
    if ps == [] {
      assert ps + [p] == [p];
    } else {
      assert (ps + [p])[1..] == ps[1..] + [p];
      DeparturesSnoc(ps[1..], p, current);
    }
  }

  lemma NoneYet(prev: seq<Container>, current: seq<Container>)
    ensures Arrivals(prev, current[..0]) == [] && Departures(prev[..0], current) == []
  {
  }

  method DiffContainerStates(prev: seq<Container>, current: seq<Container>) returns (events: seq<Event>)
    ensures events == Diff(prev, current)
  {
    hide Find, Arrivals, Departures;
    events := [];
    NoneYet(prev, current);
    for i := 0 to |current|
      invariant events == Arrivals(prev, current[..i])
    {
      var c := current[i];
      assert current[..i + 1] == current[..i] + [c];
      ArrivalsSnoc(prev, current[..i], c);
      var p := FindByName(prev, c.name);
      if p.None? {
        events := events + [Started(c)];
        if !Runs(c) {
          events := events + [Exited(c.name, c.exitCode)];
        }
      } else if !Runs(p.value) && Runs(c) {
        events := events + [Started(c)];
      }
    }
    assert current[..|current|] == current;
    for i := 0 to |prev|
      invariant events == Arrivals(prev, current) + Departures(prev[..i], current)
    {
      var p := prev[i];
      assert prev[..i + 1] == prev[..i] + [p];
      DeparturesSnoc(prev[..i], p, current);
      var c := FindByName(current, p.name);
      if c.None? {
        events := events + [Exited(p.name, p.exitCode)];
      } else if Runs(p) && !Runs(c.value) {
        events := events + [Exited(c.value.name, c.value.exitCode)];
      }
    }
    assert prev[..|prev|] == prev;
  }

  // ---- What a follower of the events believes --------------------------------------------

  function NameOf(e: Event): string {
    match e
    case Started(c) => c.name
    case Exited(name, _) => name
  }

  /** The names believed to run: Started adds one, Exited removes one. */
  function Fold(view: set<string>, es: seq<Event>): set<string>
    decreases es
  {
    if es == [] then view
    else Fold(if es[0].Started? then view + {NameOf(es[0])} else view - {NameOf(es[0])}, es[1..])
  }

  predicate Mentions(es: seq<Event>, name: string) {
    exists e <- es :: NameOf(e) == name
  }

  /** The same belief about one name alone. */
  predicate Track(believed: bool, es: seq<Event>, name: string)
    decreases es
  {
    if es == [] then believed
    else Track(if NameOf(es[0]) == name then es[0].Started? else believed, es[1..], name)
  }

  lemma {:induction false} FoldIsTrack(view: set<string>, es: seq<Event>, name: string)
    ensures name in Fold(view, es) <==> Track(name in view, es, name)
    decreases es
  {
    if es != [] {
      FoldIsTrack(if es[0].Started? then view + {NameOf(es[0])} else view - {NameOf(es[0])}, es[1..], name);
    }
  }

  lemma {:induction false} TrackAppend(believed: bool, a: seq<Event>, b: seq<Event>, name: string)
    ensures Track(believed, a + b, name) == Track(Track(believed, a, name), b, name)
    decreases a
  {
    if a == [] {
      assert a + b == b;
    } else {
      assert (a + b)[1..] == a[1..] + b;
      TrackAppend(if NameOf(a[0]) == name then a[0].Started? else believed, a[1..], b, name);
    }
  }

  /** Events that mention a name settle it; others leave it alone. */
  lemma {:induction false} TrackMentioned(believed: bool, es: seq<Event>, name: string)
    ensures Mentions(es, name) ==> Track(believed, es, name) == Track(!believed, es, name)
    ensures !Mentions(es, name) ==> Track(believed, es, name) == believed
  {
    if es != [] {
      assert Mentions(es, name) <==> NameOf(es[0]) == name || Mentions(es[1..], name) by {
        assert es == [es[0]] + es[1..];
      }
      TrackMentioned(believed, es[1..], name);
    }
  }

  lemma {:induction false} FindFacts(cs: seq<Container>, name: string)
    ensures Find(cs, name).None? <==> FindLast(cs, name).None?
    ensures Find(cs, name).None? ==> name !in Running(cs)
    ensures Find(cs, name).Some? ==> Find(cs, name).value.name == name && FindLast(cs, name).value.name == name
    ensures Find(cs, name).Some? && Runs(Find(cs, name).value) ==> name in Running(cs)
    ensures FindLast(cs, name).Some? && Runs(FindLast(cs, name).value) ==> name in Running(cs)
  {
    if cs != [] {
      FindFacts(cs[1..], name);
      RunningHead(cs);
    }
  }

  lemma RunningHead(cs: seq<Container>)
    requires cs != []
    ensures Running(cs) == (if Runs(cs[0]) then {cs[0].name} else {}) + Running(cs[1..])
  {
    assert cs == [cs[0]] + cs[1..];
  }

  lemma TrackArrival(prev: seq<Container>, c: Container, name: string, believed: bool)
    ensures Track(believed, Arrival(prev, c), name)
         == if c.name != name then believed
            else match Find(prev, name)
              case None => Runs(c)
              case Some(p) => believed || (!Runs(p) && Runs(c))
  {
    TrackAppend(believed, [Started(c)], [Exited(c.name, c.exitCode)], name);
  }

  lemma {:induction false} TrackArrivals(prev: seq<Container>, current: seq<Container>, name: string, believed: bool)
    ensures Track(believed, Arrivals(prev, current), name)
         == match Find(prev, name)
            case Some(p) => believed || (!Runs(p) && name in Running(current))
            case None => match FindLast(current, name)
              case Some(c) => Runs(c)
              case None => believed
  {
    if current != [] {
      var c := current[0];
      var es := Arrival(prev, c);
      TrackAppend(believed, es, Arrivals(prev, current[1..]), name);
      TrackArrival(prev, c, name, believed);
      RunningHead(current);
      TrackArrivals(prev, current[1..], name, Track(believed, es, name));
    }
  }

  lemma {:induction false} TrackDepartures(prev: seq<Container>, current: seq<Container>, name: string, believed: bool)
    ensures Track(believed, Departures(prev, current), name)
         == match Find(current, name)
            case None => believed && Find(prev, name).None?
            case Some(c) => believed && (Runs(c) || name !in Running(prev))
  {
    if prev != [] {
      var p := prev[0];
      TrackAppend(believed, Departure(current, p), Departures(prev[1..], current), name);
      FindFacts(current, p.name);
      RunningHead(prev);
      TrackDepartures(prev[1..], current, name, Track(believed, Departure(current, p), name));
    }
  }

  /** With repeated names in a snapshot the events can mislead: a name with a running entry must
      have a running last entry when it is new, and a running first entry when it ran before. */
  predicate TellsTruth(prev: seq<Container>, current: seq<Container>, name: string) {
    name in Running(current) ==>
      && (Find(prev, name).None? ==> FindLast(current, name).Some? && Runs(FindLast(current, name).value))
      && (name in Running(prev) ==> Find(current, name).Some? && Runs(Find(current, name).value))
  }

  lemma DiffTracks(prev: seq<Container>, current: seq<Container>, name: string)
    ensures Track(name in Running(prev), Diff(prev, current), name) == (name in Running(current))
            <==> TellsTruth(prev, current, name)
  {
    var believed := name in Running(prev);
    TrackAppend(believed, Arrivals(prev, current), Departures(prev, current), name);
    TrackArrivals(prev, current, name, believed);
    TrackDepartures(prev, current, name, Track(believed, Arrivals(prev, current), name));
    FindFacts(prev, name);
    FindFacts(current, name);
  }

  /** Folding the events over what ran before gives exactly what runs now, if and only if no
      repeated name misleads. */
  lemma DiffIsExact(prev: seq<Container>, current: seq<Container>)
    ensures Fold(Running(prev), Diff(prev, current)) == Running(current)
            <==> forall c <- current :: TellsTruth(prev, current, c.name)
  {
    var view := Fold(Running(prev), Diff(prev, current));
    forall name
      ensures (name in view <==> name in Running(current)) <==> TellsTruth(prev, current, name)
    {
      DiffTracks(prev, current, name);
      FoldIsTrack(Running(prev), Diff(prev, current), name);
    }
    if forall c <- current :: TellsTruth(prev, current, c.name) {
      forall name
        ensures name in view <==> name in Running(current)
      {
        if name in Running(current) {
          var c :| c in current && c.name == name;
        }
      }
    }
  }

  /** A repeated name does mislead: an entry that has exited after a running one when the name is new,
      and before it when the name ran. */
  lemma RepeatedNamesMislead(running: Container, exited: Container)
    requires Runs(running) && !Runs(exited) && running.name == exited.name
    ensures Fold(Running([]), Diff([], [running, exited])) != Running([running, exited])
    ensures Fold(Running([running]), Diff([running], [exited, running])) != Running([exited, running])
  {
    var a, b := [running, exited], [exited, running];
    assert a[1..] == [exited] && b[1..] == [running];
    assert running in a && running in b && running in [running];
    DiffIsExact([], a);
    DiffIsExact([running], b);
    assert FindLast([exited], running.name) == Some(exited) && Find([running], running.name) == Some(running);
    assert running.name in Running(a) && running.name in Running(b) && running.name in Running([running]);
    assert !TellsTruth([], a, running.name) && !TellsTruth([running], b, running.name);
  }

  lemma {:induction false} DistinctFinds(cs: seq<Container>, c: Container)
    requires Distinct(cs) && c in cs
    ensures Find(cs, c.name) == FindLast(cs, c.name) == Some(c)
  {
    var k :| 0 <= k < |cs| && cs[k] == c;
    if k == 0 {
      FindFacts(cs[1..], c.name);
      assert forall d <- cs[1..] :: d.name != c.name;
      Absent(cs[1..], c.name);
    } else {
      assert cs[1..][k - 1] == c;
      DistinctFinds(cs[1..], c);
    }
  }

  lemma {:induction false} Absent(cs: seq<Container>, name: string)
    requires forall c <- cs :: c.name != name
    ensures Find(cs, name) == FindLast(cs, name) == None
  {
    if cs != [] {
      Absent(cs[1..], name);
    }
  }

  /** Distinct names never mislead, including containers first seen already exited. */
  lemma DistinctTellsTruth(prev: seq<Container>, current: seq<Container>, name: string)
    requires Distinct(current)
    ensures TellsTruth(prev, current, name)
  {
    if name in Running(current) {
      var c :| c in current && Runs(c) && c.name == name;
      DistinctFinds(current, c);
    }
  }

  // ---- What each event carries -----------------------------------------------------------

  /** A container that is new, or runs again. */
  predicate Arrived(prev: seq<Container>, c: Container) {
    Find(prev, c.name).None? || (!Runs(Find(prev, c.name).value) && Runs(c))
  }

  /** The exit that the two lists tell of a name: with the code of the current entry, if there is one. */
  predicate ExitTold(prev: seq<Container>, current: seq<Container>, name: string, code: Option<int>) {
    match (Find(prev, name), Find(current, name))
    case (None, None) => false
    case (None, Some(c)) => !Runs(c) && code == c.exitCode
    case (Some(p), None) => code == p.exitCode
    case (Some(p), Some(c)) => Runs(p) && !Runs(c) && code == c.exitCode
  }

  lemma {:induction false} FoundIn(cs: seq<Container>, name: string)
    ensures Find(cs, name).Some? ==> Find(cs, name).value in cs && Find(cs, name).value.name == name
    ensures Find(cs, name).None? ==> forall c <- cs :: c.name != name
  {
    if cs != [] {
      FoundIn(cs[1..], name);
    }
  }

  lemma {:induction false} InArrivals(prev: seq<Container>, current: seq<Container>, e: Event)
    ensures e in Arrivals(prev, current) <==> exists c <- current :: e in Arrival(prev, c)
  {
    hide Arrival;
    if current != [] {
      assert forall c :: c in current <==> c == current[0] || c in current[1..];
      InArrivals(prev, current[1..], e);
    }
  }

  lemma {:induction false} InDepartures(prev: seq<Container>, current: seq<Container>, e: Event)
    ensures e in Departures(prev, current) <==> exists p <- prev :: e in Departure(current, p)
  {
    hide Departure;
    if prev != [] {
      assert forall p :: p in prev <==> p == prev[0] || p in prev[1..];
      InDepartures(prev[1..], current, e);
    }
  }

  /** With distinct names the events are exactly these: Started with the entry of each container that
      arrived, and Exited with the last known exit code of each that is gone or has stopped. */
  lemma EventsAreExact(prev: seq<Container>, current: seq<Container>, e: Event)
    requires Distinct(prev) && Distinct(current)
    ensures e in Diff(prev, current) <==>
              match e
              case Started(c) => c in current && Arrived(prev, c)
              case Exited(name, code) => ExitTold(prev, current, name, code)
  {
    InArrivals(prev, current, e);
    InDepartures(prev, current, e);
    match e
    case Started(c) => hide Find;
    case Exited(name, code) =>
      FoundIn(prev, name);
      FoundIn(current, name);
      hide Arrivals, Departures, Diff;
      ExitsAreExact(prev, current, name, code);
      assert e in Diff(prev, current) <==> e in Arrivals(prev, current) || e in Departures(prev, current) by {
        InDiff(prev, current, e);
      }
  }

  lemma InDiff(prev: seq<Container>, current: seq<Container>, e: Event)
    ensures e in Diff(prev, current) <==> e in Arrivals(prev, current) || e in Departures(prev, current)
  {
    hide Arrivals, Departures;
  }

  lemma ExitsAreExact(prev: seq<Container>, current: seq<Container>, name: string, code: Option<int>)
    requires Distinct(prev) && Distinct(current)
    ensures (exists c <- current :: Exited(name, code) in Arrival(prev, c))
            || (exists p <- prev :: Exited(name, code) in Departure(current, p))
            <==> ExitTold(prev, current, name, code)
  {
    FoundIn(prev, name);
    FoundIn(current, name);
    forall c | c in current && c.name == name
      ensures Find(current, name) == Some(c)
    {
      DistinctFinds(current, c);
    }
    forall p | p in prev && p.name == name
      ensures Find(prev, name) == Some(p)
    {
      DistinctFinds(prev, p);
    }
    forall c | c in current && c.name != name
      ensures Exited(name, code) !in Arrival(prev, c)
    {
    }
    forall p | p in prev && p.name != name
      ensures Exited(name, code) !in Departure(current, p)
    {
      FoundIn(current, p.name);
    }
    hide Find, Distinct;
  }

  predicate NoRepeats(es: seq<Event>) {
    forall i, j :: 0 <= i < j < |es| ==> es[i] != es[j]
  }

  lemma Nothing()
    ensures NoRepeats([])
  {
  }

  lemma OnceEach(a: seq<Event>, b: seq<Event>)
    requires NoRepeats(a) && NoRepeats(b) && forall e <- a :: e !in b
    ensures NoRepeats(a + b)
  {
    forall i, j | 0 <= i < j < |a + b|
      ensures (a + b)[i] != (a + b)[j]
    {
      if i < |a| {
        assert (a + b)[i] in a;
      }
    }
  }

  lemma ArrivalNames(prev: seq<Container>, c: Container)
    ensures NoRepeats(Arrival(prev, c)) && forall e <- Arrival(prev, c) :: NameOf(e) == c.name
  {
    hide Find;
  }

  lemma DepartureNames(current: seq<Container>, p: Container)
    ensures NoRepeats(Departure(current, p)) && forall e <- Departure(current, p) :: e.Exited? && NameOf(e) == p.name
  {
    FoundIn(current, p.name);
    hide Find;
  }

  lemma {:induction false} ArrivalsOnce(prev: seq<Container>, cs: seq<Container>)
    requires Distinct(cs)
    ensures NoRepeats(Arrivals(prev, cs))
  {
    hide Arrival, NoRepeats;
    if cs == [] {
      Nothing();
    } else {
      var rest := cs[1..];
      ArrivalsOnce(prev, rest);
      ArrivalNames(prev, cs[0]);
      forall e | e in Arrivals(prev, rest)
        ensures e !in Arrival(prev, cs[0])
      {
        InArrivals(prev, rest, e);
        var c :| c in rest && e in Arrival(prev, c);
        ArrivalNames(prev, c);
      }
      OnceEach(Arrival(prev, cs[0]), Arrivals(prev, rest));
    }
  }

  lemma {:induction false} DeparturesOnce(ps: seq<Container>, current: seq<Container>)
    requires Distinct(ps)
    ensures NoRepeats(Departures(ps, current))
  {
    hide Departure, NoRepeats;
    if ps == [] {
      Nothing();
    } else {
      var rest := ps[1..];
      DeparturesOnce(rest, current);
      DepartureNames(current, ps[0]);
      forall e | e in Departures(rest, current)
        ensures e !in Departure(current, ps[0])
      {
        InDepartures(rest, current, e);
        var p :| p in rest && e in Departure(current, p);
        DepartureNames(current, p);
      }
      OnceEach(Departure(current, ps[0]), Departures(rest, current));
    }
  }

  /** Nothing is told twice. */
  lemma EventsAreOnce(prev: seq<Container>, current: seq<Container>)
    requires Distinct(prev) && Distinct(current)
    ensures NoRepeats(Diff(prev, current))
  {
    ArrivalsOnce(prev, current);
    DeparturesOnce(prev, current);
    hide NoRepeats, Distinct;
    forall e | e in Arrivals(prev, current)
      ensures e !in Departures(prev, current)
    {
      InArrivals(prev, current, e);
      InDepartures(prev, current, e);
      NotBoth(prev, current, e);
    }
    OnceEach(Arrivals(prev, current), Departures(prev, current));
  }

  lemma NotBoth(prev: seq<Container>, current: seq<Container>, e: Event)
    ensures !((exists c <- current :: e in Arrival(prev, c)) && exists p <- prev :: e in Departure(current, p))
  {
    forall c, p | c in current && e in Arrival(prev, c) && p in prev
      ensures e !in Departure(current, p)
    {
      DepartureNames(current, p);
      FoundIn(prev, c.name);
    }
  }
}
