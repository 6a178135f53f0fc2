/** The poller and the subscribers' handlers as steps that interleave freely.

    A subscriber first registers its channel, then reads its snapshot, then passes events on to its
    client.  The poller's broadcast holds the list's lock, so nobody registers meanwhile, but the
    handlers take events from their channels between any two of its sends. */
module EventStream {
  import opened Events
  import opened Wrappers

  const CHANNEL: nat := 256

  type Polls = ps: seq<seq<Container>> | ps != [] witness [[]]

  datatype Subscriber = Subscriber(
    queue: seq<Event>,                    // the bounded channel
    connected: bool,                      // the handler still holds the receiving end
    snapshot: Option<seq<Container>>,     // what the client was sent first
    delivered: seq<Event>,                // what it has been sent since
    polls: Polls,                         // history: the poll before registration, and those since
    kept: seq<nat>)                       // history: how many events of each batch were taken

  /** Whose turn it is in a broadcast, and how many events it has taken. */
  datatype Turn = Turn(at: nat, sent: nat)

  datatype State = State(
    prev: seq<Container>,                 // the last poll that was broadcast
    read: Option<seq<Container>>,         // a poll not yet compared, or being broadcast
    subs: seq<Subscriber>,
    turn: Option<Turn>)

  // ---- Steps -----------------------------------------------------------------------------

  datatype Action =
    | PollRead(found: seq<Container>)
    | PollDiff
    | TrySend
    | Subscribe
    | ReadSnapshot(i: nat, found: seq<Container>)
    | Deliver(i: nat)
    | HangUp(i: nat)

  predicate Enabled(s: State, a: Action) {
    match a
    case PollRead(_) => s.read.None?
    case PollDiff => s.read.Some? && s.turn.None?
    case TrySend => s.read.Some? && s.turn.Some?
    case Subscribe => s.turn.None?
    case ReadSnapshot(i, _) => i < |s.subs| && s.subs[i].connected && s.subs[i].snapshot.None?
    case Deliver(i) => i < |s.subs| && s.subs[i].connected && s.subs[i].snapshot.Some? && s.subs[i].queue != []
    case HangUp(i) => i < |s.subs|
  }

  /** History: the subscriber's part in a batch is over. */
  function Noted(sub: Subscriber, current: seq<Container>, sent: nat): Subscriber {
    sub.(polls := sub.polls + [current], kept := sub.kept + [sent])
  }

  function AllNoted(subs: seq<Subscriber>, current: seq<Container>): (noted: seq<Subscriber>)
    ensures |noted| == |subs|
  {
    seq(|subs|, i requires 0 <= i < |subs| => Noted(subs[i], current, 0))
  }

  function Fresh(prev: seq<Container>): Subscriber {
    Subscriber([], true, None, [], [prev], [])
  }

  /** One send of a broadcast, or the end of a subscriber's turn, or of the broadcast. */
  function Send(s: State): State
    requires Enabled(s, TrySend)
  {
    var at, sent := s.turn.value.at, s.turn.value.sent;
    var current := s.read.value;
    var events := Diff(s.prev, current);
    if at >= |s.subs| then State(current, None, s.subs, None)
    else
      var sub := s.subs[at];
      if sent >= |events| || (sub.connected && |sub.queue| >= CHANNEL) then
        s.(subs := s.subs[at := Noted(sub, current, sent)], turn := Some(Turn(at + 1, 0)))
      else if !sub.connected then
        s.(subs := s.subs[..at] + s.subs[at + 1..], turn := Some(Turn(at, 0)))
      else
        s.(subs := s.subs[at := sub.(queue := sub.queue + [events[sent]])], turn := Some(Turn(at, sent + 1)))
  }

  function Delivered(sub: Subscriber): Subscriber
    requires sub.queue != []
  {
    sub.(queue := sub.queue[1..], delivered := sub.delivered + [sub.queue[0]])
  }

  function Step(s: State, a: Action): State
    requires Enabled(s, a)
  {
    match a
    case PollRead(found) => s.(read := Some(found))
    case PollDiff =>
      if Diff(s.prev, s.read.value) == [] then State(s.read.value, None, AllNoted(s.subs, s.read.value), None)
      else s.(turn := Some(Turn(0, 0)))
    case TrySend => Send(s)
    case Subscribe => s.(subs := s.subs + [Fresh(s.prev)])
    case ReadSnapshot(i, found) => s.(subs := s.subs[i := s.subs[i].(snapshot := Some(found))])
    case Deliver(i) => s.(subs := s.subs[i := Delivered(s.subs[i])])
    case HangUp(i) => s.(subs := s.subs[i := s.subs[i].(connected := false)])
  }

  /** The actions lead from one state to the other. */
  ghost predicate Reaches(s: State, acts: seq<Action>, s': State)
    decreases |acts|
  {
    if acts == [] then s == s'
    else
      var n := |acts| - 1;
      exists m :: Reaches(s, acts[..n], m) && Enabled(m, acts[n]) && Step(m, acts[n]) == s'
  }

  lemma ReachesMore(s: State, acts: seq<Action>, m: State, a: Action)
    requires Reaches(s, acts, m) && Enabled(m, a)
    ensures Reaches(s, acts + [a], Step(m, a))
  {
    assert (acts + [a])[..|acts|] == acts;
  }

  /** Every run, from any first poll. */
  ghost predicate Run(acts: seq<Action>, s: State) {
    exists first :: Reaches(State(first, None, [], None), acts, s)
  }

  // ---- The implementation ----------------------------------------------------------------

  class EventHub {
    var prev: seq<Container>
    var read: Option<seq<Container>>
    var subs: seq<Subscriber>
    ghost var turn: Option<Turn>

    ghost function Now(): State
      reads this
    {
      State(prev, read, subs, turn)
    }

    constructor (first: seq<Container>)
      ensures Now() == State(first, None, [], None)
    {
      prev, read, subs := first, None, [];
      turn := None;
    }

    /** A new subscriber's channel goes to the end of the list. */
    method Register()
      requires Enabled(Now(), Subscribe)
      modifies this`subs
      ensures Now() == Step(old(Now()), Subscribe)
    {
      subs := subs + [Subscriber([], true, None, [], [prev], [])];
    }

    /** What the handlers may do while the poller runs: any number of deliveries, snapshots and
        hang-ups. */
    method Interfere(ghost s0: State, ghost acts: seq<Action>) returns (ghost acts': seq<Action>)
      requires Reaches(s0, acts, Now())
      modifies this`subs
      ensures Reaches(s0, acts', Now()) && |subs| == |old(subs)|
    {
      acts' := acts;
      var fuel: nat := *;
      while fuel > 0
        invariant Reaches(s0, acts', Now()) && |subs| == |old(subs)|
      {
        fuel := fuel - 1;
        if subs != [] {
          var i: nat :| i < |subs|;
          if * {
            ReachesMore(s0, acts', Now(), HangUp(i));
            subs, acts' := subs[i := subs[i].(connected := false)], acts' + [HangUp(i)];
          } else if subs[i].connected && subs[i].snapshot.Some? && subs[i].queue != [] {
            ReachesMore(s0, acts', Now(), Deliver(i));
            subs, acts' := subs[i := Delivered(subs[i])], acts' + [Deliver(i)];
          } else if subs[i].connected && subs[i].snapshot.None? {
            var found: seq<Container> := *;
            ReachesMore(s0, acts', Now(), ReadSnapshot(i, found));
            subs, acts' := subs[i := subs[i].(snapshot := Some(found))], acts' + [ReadSnapshot(i, found)];
          }
        }
      }
    }

    /** One subscriber's turn: events are tried one by one, up to the first failure.  A full channel
        keeps the subscriber, a receiver that is gone removes it. */
    method TrySendAll(at: nat, events: seq<Event>, current: seq<Container>, ghost s0: State, ghost acts: seq<Action>)
      returns (keep: bool, ghost acts': seq<Action>)
      requires at < |subs| && turn == Some(Turn(at, 0)) && read == Some(current) && events == Diff(prev, current)
      requires Reaches(s0, acts, Now())
      modifies this`subs, this`turn
      ensures Reaches(s0, acts', Now())
      ensures if keep then |subs| == |old(subs)| && turn == Some(Turn(at + 1, 0))
              else |subs| == |old(subs)| - 1 && turn == Some(Turn(at, 0))
    {
      hide Diff, Reaches;
      acts' := acts;
      for i := 0 to |events|
        invariant |subs| == |old(subs)| && turn == Some(Turn(at, i))
        invariant Reaches(s0, acts', Now())
      {
        acts' := Interfere(s0, acts');
        ReachesMore(s0, acts', Now(), TrySend);
        acts' := acts' + [TrySend];
        if !subs[at].connected {
          subs, turn := subs[..at] + subs[at + 1..], Some(Turn(at, 0));
          return false, acts';
        }
        if |subs[at].queue| >= CHANNEL {
          subs, turn := subs[at := Noted(subs[at], current, i)], Some(Turn(at + 1, 0));
          return true, acts';
        }
        subs, turn := subs[at := subs[at].(queue := subs[at].queue + [events[i]])], Some(Turn(at, i + 1));
      }
      ReachesMore(s0, acts', Now(), TrySend);
      acts' := acts' + [TrySend];
      subs, turn := subs[at := Noted(subs[at], current, |events|)], Some(Turn(at + 1, 0));
      return true, acts';
    }

    /** Each subscriber has its turn, in order; those whose receivers are gone leave the list. */
    method BroadcastEvents(events: seq<Event>, current: seq<Container>, ghost s0: State, ghost acts: seq<Action>)
      returns (ghost acts': seq<Action>)
      requires turn == Some(Turn(0, 0)) && read == Some(current) && events == Diff(prev, current)
      requires Reaches(s0, acts, Now())
      modifies this`subs, this`turn
      ensures Reaches(s0, acts', Now()) && turn == Some(Turn(|subs|, 0))
    {
      acts' := acts;
      var at := 0;
      while at < |subs|
        invariant at <= |subs| && turn == Some(Turn(at, 0))
        invariant Reaches(s0, acts', Now())
        decreases |subs| - at
      {
        var keep;
        keep, acts' := TrySendAll(at, events, current, s0, acts');
        if keep {
          at := at + 1;
        }
      }
    }

    /** One turn of the poller: read, compare, broadcast what differs, remember the poll.  It is one
        of the state machine's runs, whatever the handlers do meanwhile. */
    method PollOnce(found: seq<Container>) returns (ghost acts: seq<Action>)
      requires read.None? && turn.None?
      modifies this
      ensures Reaches(old(Now()), acts, Now())
      ensures read.None? && turn.None? && prev == found
    {
      ghost var s0 := Now();
      acts := [PollRead(found), PollDiff];
      read := Some(found);
      var events := DiffContainerStates(prev, found);
      ReachesMore(s0, [], s0, PollRead(found));
      assert [] + [PollRead(found)] == [PollRead(found)];
      ReachesMore(s0, [PollRead(found)], Now(), PollDiff);
      assert [PollRead(found)] + [PollDiff] == acts;
      hide Diff, Reaches;
      if events != [] {
        turn := Some(Turn(0, 0));
        acts := BroadcastEvents(events, found, s0, acts);
        ReachesMore(s0, acts, Now(), TrySend);
        acts := acts + [TrySend];
        turn := None;
      } else {
        subs := AllNoted(subs, found);
      }
      prev, read := found, None;
    }
  }

  // ---- What a client hears ---------------------------------------------------------------

  /** What the client has been sent, and what its channel still holds. */
  function Heard(s: Subscriber): seq<Event> {
    s.delivered + s.queue
  }

  /** The names that a client takes to be running once it has had everything. */
  function Believed(s: Subscriber): set<string>
    requires s.snapshot.Some?
  {
    Fold(Running(s.snapshot.value), Heard(s))
  }

  function First(es: seq<Event>, n: nat): seq<Event> {
    if n <= |es| then es[..n] else es
  }

  /** The first events of each batch, as many as were taken. */
  function Cuts(polls: Polls, kept: seq<nat>): seq<Event>
    requires |kept| + 1 == |polls|
    decreases |kept|
  {
    if kept == [] then []
    else
      var n := |kept|;
      Cuts(polls[..n], kept[..n - 1]) + First(Diff(polls[n - 1], polls[n]), kept[n - 1])
  }

  /** All the events between successive polls. */
  function Diffs(polls: Polls): seq<Event> {
    if |polls| == 1 then []
    else
      var n := |polls| - 1;
      Diffs(polls[..n]) + Diff(polls[n - 1], polls[n])
  }

  /** The channel took every event of every batch. */
  ghost predicate Whole(s: Subscriber) {
    |s.kept| + 1 == |s.polls| && forall k :: 0 <= k < |s.kept| ==> |Diff(s.polls[k], s.polls[k + 1])| <= s.kept[k]
  }

  lemma {:induction false} WholeCuts(polls: Polls, kept: seq<nat>)
    requires |kept| + 1 == |polls|
    requires forall k :: 0 <= k < |kept| ==> |Diff(polls[k], polls[k + 1])| <= kept[k]
    ensures Cuts(polls, kept) == Diffs(polls)
    decreases |kept|
  {
    hide Diff;
    if kept != [] {
      WholeCuts(polls[..|kept|], kept[..|kept| - 1]);
    }
  }

  // ---- What every run keeps --------------------------------------------------------------

  /** No event is repeated or out of order, and of each batch a prefix was taken. */
  predicate InStep(s: Subscriber, latest: seq<Container>, more: seq<Event>) {
    && |s.queue| <= CHANNEL
    && |s.kept| + 1 == |s.polls| && s.polls[|s.polls| - 1] == latest
    && Heard(s) == Cuts(s.polls, s.kept) + more
  }

  ghost predicate Inv(s: State) {
    match s.turn
    case None => forall i :: 0 <= i < |s.subs| ==> InStep(s.subs[i], s.prev, [])
    case Some(Turn(at, sent)) =>
      && s.read.Some? && at <= |s.subs| && sent <= |Diff(s.prev, s.read.value)|
      && (forall i :: 0 <= i < at ==> InStep(s.subs[i], s.read.value, []))
      && (at < |s.subs| ==> InStep(s.subs[at], s.prev, Diff(s.prev, s.read.value)[..sent]))
      && forall i :: at < i < |s.subs| ==> InStep(s.subs[i], s.prev, [])
  }

  /** A turn ends: what was taken of the batch is its cut. */
  lemma NotedInStep(sub: Subscriber, prev: seq<Container>, current: seq<Container>, sent: nat)
    requires sent <= |Diff(prev, current)| && InStep(sub, prev, Diff(prev, current)[..sent])
    ensures InStep(Noted(sub, current, sent), current, [])
  {
    hide Diff;
    var polls, kept := sub.polls + [current], sub.kept + [sent];
    assert polls[..|kept|] == sub.polls && kept[..|kept| - 1] == sub.kept;
    assert Cuts(polls, kept) == Cuts(sub.polls, sub.kept) + Diff(prev, current)[..sent];
    assert Cuts(polls, kept) + [] == Cuts(polls, kept);
  }

  /** One more event of the batch is taken. */
  lemma SentInStep(sub: Subscriber, prev: seq<Container>, events: seq<Event>, sent: nat)
    requires sent < |events| && InStep(sub, prev, events[..sent]) && |sub.queue| < CHANNEL
    ensures InStep(sub.(queue := sub.queue + [events[sent]]), prev, events[..sent + 1])
  {
    var before := Cuts(sub.polls, sub.kept);
    assert events[..sent + 1] == events[..sent] + [events[sent]];
    assert sub.delivered + (sub.queue + [events[sent]]) == sub.delivered + sub.queue + [events[sent]];
    assert before + (events[..sent] + [events[sent]]) == before + events[..sent] + [events[sent]];
  }

  /** What a handler does to its own subscriber does not change what the client hears. */
  lemma HandledInStep(sub: Subscriber, sub': Subscriber, latest: seq<Container>, more: seq<Event>)
    requires InStep(sub, latest, more) && |sub'.queue| <= |sub.queue|
    requires Heard(sub') == Heard(sub) && sub'.polls == sub.polls && sub'.kept == sub.kept
    ensures InStep(sub', latest, more)
  {
    hide Cuts, Heard;
  }

  lemma DeliveredHeard(sub: Subscriber)
    requires sub.queue != []
    ensures Heard(Delivered(sub)) == Heard(sub)
  {
    assert sub.queue == [sub.queue[0]] + sub.queue[1..];
  }

  lemma SendInv(s: State)
    requires Inv(s) && Enabled(s, TrySend)
    ensures Inv(Send(s))
  {
    hide Diff, Heard, Cuts, InStep, Noted;
    var at, sent := s.turn.value.at, s.turn.value.sent;
    var events := Diff(s.prev, s.read.value);
    if at < |s.subs| {
      var sub := s.subs[at];
      assert events[..0] == [];
      if sent >= |events| || (sub.connected && |sub.queue| >= CHANNEL) {
        NotedInStep(sub, s.prev, s.read.value, sent);
      } else if sub.connected {
        SentInStep(sub, s.prev, events, sent);
      }
    }
  }

  lemma DiffInv(s: State)
    requires Inv(s) && Enabled(s, PollDiff)
    ensures Inv(Step(s, PollDiff))
  {
    hide Diff, Heard, Cuts, InStep, Noted;
    var events := Diff(s.prev, s.read.value);
    assert events[..0] == [];
    if events == [] {
      forall i | 0 <= i < |s.subs|
        ensures InStep(Noted(s.subs[i], s.read.value, 0), s.read.value, [])
      {
        NotedInStep(s.subs[i], s.prev, s.read.value, 0);
      }
    }
  }

  lemma FreshInStep(prev: seq<Container>)
    ensures InStep(Fresh(prev), prev, [])
  {
    assert Cuts([prev], []) == [];
  }

  /** What one subscriber is in step with. */
  function Latest(s: State, i: nat): seq<Container> {
    if s.turn.Some? && s.read.Some? && i < s.turn.value.at then s.read.value else s.prev
  }

  function Part(s: State, i: nat): seq<Event> {
    if s.turn.Some? && s.read.Some? && i == s.turn.value.at then First(Diff(s.prev, s.read.value), s.turn.value.sent)
    else []
  }

  lemma InvAt(s: State, i: nat)
    requires Inv(s) && i < |s.subs|
    ensures InStep(s.subs[i], Latest(s, i), Part(s, i))
  {
    hide Diff, InStep;
  }

  lemma HandlerInv(s: State, a: Action)
    requires Inv(s) && Enabled(s, a) && (a.ReadSnapshot? || a.Deliver? || a.HangUp?)
    ensures Inv(Step(s, a))
  {
    var sub, sub' := s.subs[a.i], Step(s, a).subs[a.i];
    InvAt(s, a.i);
    if a.Deliver? {
      DeliveredHeard(sub);
    }
    assert Heard(sub') == Heard(sub);
    HandledInStep(sub, sub', Latest(s, a.i), Part(s, a.i));
    OneReplaced(s, a.i, sub');
  }

  lemma OneReplaced(s: State, i: nat, sub': Subscriber)
    requires Inv(s) && i < |s.subs| && InStep(sub', Latest(s, i), Part(s, i))
    ensures Inv(s.(subs := s.subs[i := sub']))
  {
    hide Diff, InStep;
  }

  lemma StepInv(s: State, a: Action)
    requires Inv(s) && Enabled(s, a)
    ensures Inv(Step(s, a))
  {
    match a
    case PollRead(_) => hide Diff, InStep;
    case PollDiff => DiffInv(s);
    case TrySend => SendInv(s);
    case Subscribe =>
      FreshInStep(s.prev);
      hide Diff, InStep;
    case _ => HandlerInv(s, a);
  }

  lemma {:induction false} ReachesInv(s: State, acts: seq<Action>, s': State)
    requires Inv(s) && Reaches(s, acts, s')
    ensures Inv(s')
    decreases |acts|
  {
    hide Inv, Step, Enabled;
    if acts != [] {
      var n := |acts| - 1;
      var m :| Reaches(s, acts[..n], m) && Enabled(m, acts[n]) && Step(m, acts[n]) == s';
      ReachesInv(s, acts[..n], m);
      StepInv(m, acts[n]);
    }
  }

  lemma RunInv(acts: seq<Action>, s: State)
    requires Run(acts, s)
    ensures Inv(s)
  {
    hide InStep, Diff;
    var first :| Reaches(State(first, None, [], None), acts, s);
    ReachesInv(State(first, None, [], None), acts, s);
  }

  /** At every moment a subscriber has heard a prefix of each batch since it registered, the batches
      in order, and of the batch that it is being sent what has been sent. */
  lemma HeardArePrefixes(acts: seq<Action>, s: State, i: nat)
    requires Run(acts, s) && i < |s.subs|
    ensures |s.subs[i].queue| <= CHANNEL && |s.subs[i].kept| + 1 == |s.subs[i].polls|
    ensures s.subs[i].polls[|s.subs[i].polls| - 1] == Latest(s, i)
    ensures Heard(s.subs[i]) == Cuts(s.subs[i].polls, s.subs[i].kept) + Part(s, i)
  {
    RunInv(acts, s);
    InvAt(s, i);
  }

  /** One whose channel took everything has heard exactly the differences of successive polls. */
  lemma HeardIsComplete(acts: seq<Action>, s: State, i: nat)
    requires Run(acts, s) && i < |s.subs| && Whole(s.subs[i])
    ensures Heard(s.subs[i]) == Diffs(s.subs[i].polls) + Part(s, i)
  {
    HeardArePrefixes(acts, s, i);
    WholeCuts(s.subs[i].polls, s.subs[i].kept);
  }

  // ---- What a client believes ------------------------------------------------------------

  /** No poll misled about the name: in particular when all names were distinct. */
  ghost predicate AllTrue(polls: Polls, name: string) {
    forall k :: 1 <= k < |polls| ==> TellsTruth(polls[k - 1], polls[k], name)
  }

  lemma {:induction false} DiffsTrack(polls: Polls, name: string)
    requires AllTrue(polls, name)
    ensures Track(name in Running(polls[0]), Diffs(polls), name) == (name in Running(polls[|polls| - 1]))
  {
    var n := |polls| - 1;
    if n > 0 {
      assert polls[..n][n - 1] == polls[n - 1];
      DiffsTrack(polls[..n], name);
      TrackAppend(name in Running(polls[0]), Diffs(polls[..n]), Diff(polls[n - 1], polls[n]), name);
      DiffTracks(polls[n - 1], polls[n], name);
    }
  }

  /** Between two turns of its own, a client whose channel took everything agrees with its latest
      poll on every name it has heard of since it registered.  On any other name it keeps its
      snapshot's word, and the polls at both ends of that time agree with each other. */
  lemma BeliefAgrees(acts: seq<Action>, s: State, i: nat, name: string)
    requires Run(acts, s) && i < |s.subs| && Part(s, i) == []
    requires Whole(s.subs[i]) && s.subs[i].snapshot.Some? && AllTrue(s.subs[i].polls, name)
    ensures var sub := s.subs[i];
            && (Mentions(Heard(sub), name) ==> (name in Believed(sub) <==> name in Running(Latest(s, i))))
            && (!Mentions(Heard(sub), name) ==>
                  && (name in Believed(sub) <==> name in Running(sub.snapshot.value))
                  && (name in Running(sub.polls[0]) <==> name in Running(Latest(s, i))))
  {
    var sub := s.subs[i];
    HeardArePrefixes(acts, s, i);
    HeardIsComplete(acts, s, i);
    assert Diffs(sub.polls) + [] == Diffs(sub.polls);
    DiffsTrack(sub.polls, name);
    FoldIsTrack(Running(sub.snapshot.value), Heard(sub), name);
    TrackMentioned(name in Running(sub.snapshot.value), Heard(sub), name);
    TrackMentioned(name in Running(sub.polls[0]), Heard(sub), name);
    hide Diffs, Fold, Track, Mentions, Running, Part, Latest, Cuts;
  }

  /** Hence the only way to disagree: a name that no event has mentioned, on which the snapshot
      differed from the polls. */
  lemma DisagreesOnlyByBlip(acts: seq<Action>, s: State, i: nat, name: string)
    requires Run(acts, s) && i < |s.subs| && Part(s, i) == []
    requires Whole(s.subs[i]) && s.subs[i].snapshot.Some?
    requires forall k :: 1 <= k < |s.subs[i].polls| ==> Distinct(s.subs[i].polls[k])
    ensures var sub := s.subs[i];
            (name in Believed(sub) <==> name !in Running(Latest(s, i)))
            <==> !Mentions(Heard(sub), name)
                 && (name in Running(sub.snapshot.value) <==> name !in Running(sub.polls[0]))
  {
    var sub := s.subs[i];
    forall k | 1 <= k < |sub.polls|
      ensures TellsTruth(sub.polls[k - 1], sub.polls[k], name)
    {
      DistinctTellsTruth(sub.polls[k - 1], sub.polls[k], name);
    }
    hide TellsTruth, Mentions, Running, Fold, Latest, Part, Distinct, Whole, Heard;
    BeliefAgrees(acts, s, i, name);
  }

  /** It does happen: the snapshot catches a container between two polls that both miss it. */
  lemma BlipStays(c: Container) returns (acts: seq<Action>, s: State)
    requires Runs(c)
    ensures Run(acts, s) && |s.subs| == 1 && s.turn.None?
    ensures var sub := s.subs[0];
            && Whole(sub) && sub.snapshot.Some? && sub.polls == [[], []]
            && c.name in Believed(sub) && c.name !in Running(s.prev)
  {
    var s0 := State([], None, [], None);
    var s1 := Step(s0, Subscribe);
    ReachesMore(s0, [], s0, Subscribe);
    var s2 := Step(s1, ReadSnapshot(0, [c]));
    ReachesMore(s0, [] + [Subscribe], s1, ReadSnapshot(0, [c]));
    var s3 := Step(s2, PollRead([]));
    ReachesMore(s0, [] + [Subscribe] + [ReadSnapshot(0, [c])], s2, PollRead([]));
    assert Diff([], []) == [];
    s := Step(s3, PollDiff);
    acts := [] + [Subscribe] + [ReadSnapshot(0, [c])] + [PollRead([])] + [PollDiff];
    ReachesMore(s0, [] + [Subscribe] + [ReadSnapshot(0, [c])] + [PollRead([])], s3, PollDiff);
    hide Reaches;
    assert s.subs[0].kept == [0] && s.subs[0].polls == [[], []];
  }
}
