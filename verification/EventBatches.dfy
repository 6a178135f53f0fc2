/** When a subscriber gets the whole of a batch, and when it does not. */
module EventBatches {
  import opened Events
  import opened EventStream
  import opened Wrappers

  // ---- A batch that fits -----------------------------------------------------------------

  /** The channel whose turn it is has room for the rest of the batch. */
  predicate Roomy(s: State) {
    && s.turn.Some? && s.read.Some? && s.turn.value.at < |s.subs|
    && s.turn.value.sent <= |Diff(s.prev, s.read.value)|
    && |s.subs[s.turn.value.at].queue| + |Diff(s.prev, s.read.value)| - s.turn.value.sent <= CHANNEL
  }

  function Sends(acts: seq<Action>): nat {
    if acts == [] then 0 else Sends(acts[..|acts| - 1]) + if acts[|acts| - 1].TrySend? then 1 else 0
  }

  /** After these actions it is still the same subscriber's turn, and there is still room. */
  ghost predicate SameTurn(s: State, acts: seq<Action>, m: State)
    requires Roomy(s)
  {
    var at, sub := s.turn.value.at, s.subs[s.turn.value.at];
    && Roomy(m) && m.prev == s.prev && m.read == s.read
    && m.turn == Some(Turn(at, s.turn.value.sent + Sends(acts)))
    && m.subs[at].polls == sub.polls && m.subs[at].kept == sub.kept
    && (m.subs[at].connected <==> sub.connected && HangUp(at) !in acts)
  }

  /** The last send of the turn: all events had been taken, or the receiver was gone. */
  ghost predicate Passes(s: State, acts: seq<Action>, m: State, t: State)
    requires Roomy(s) && SameTurn(s, acts, m)
  {
    var at, n := s.turn.value.at, |Diff(s.prev, s.read.value)|;
    && Enabled(m, TrySend) && t == Send(m)
    && if s.turn.value.sent + Sends(acts) == n then
         && t.turn == Some(Turn(at + 1, 0)) && |t.subs| == |m.subs|
         && t.subs[at].kept == s.subs[at].kept + [n] && t.subs[at].polls == s.subs[at].polls + [s.read.value]
       else
         && t.turn == Some(Turn(at, 0)) && (s.subs[at].connected ==> HangUp(at) in acts)
         && t.subs == m.subs[..at] + m.subs[at + 1..]
  }

  lemma SendsSnoc(acts: seq<Action>, a: Action)
    ensures Sends(acts + [a]) == Sends(acts) + if a.TrySend? then 1 else 0
  {
    assert (acts + [a])[..|acts|] == acts;
  }

  lemma TurnGoesOn(s: State, acts: seq<Action>, m: State, a: Action)
    requires Roomy(s) && SameTurn(s, acts, m) && Enabled(m, a)
    ensures SameTurn(s, acts + [a], Step(m, a)) || (a.TrySend? && Passes(s, acts, m, Step(m, a)))
  {
    hide Diff;
    SendsSnoc(acts, a);
    assert forall x :: x in acts + [a] <==> x in acts || x == a;
  }

  /** The k-th action ended the turn. */
  ghost predicate EndedAt(s: State, acts: seq<Action>, s': State, k: nat, m: State, t: State)
    requires Roomy(s)
  {
    && k < |acts| && acts[k].TrySend? && Reaches(s, acts[..k], m) && SameTurn(s, acts[..k], m)
    && Passes(s, acts[..k], m, t) && Reaches(t, acts[k + 1..], s')
  }

  /** From the moment a channel has room for the rest of a batch, every run either is still in that
      turn, with room, or has ended it with every event taken, unless the receiver hung up. */
  lemma {:induction false} FittingBatchIsKept(s: State, acts: seq<Action>, s': State)
    returns (k: nat, m: State, t: State)
    requires Roomy(s) && Reaches(s, acts, s')
    ensures SameTurn(s, acts, s') || EndedAt(s, acts, s', k, m, t)
    decreases |acts|
  {
    hide Diff, Roomy, SameTurn, Passes, Step, Enabled, EndedAt;
    k, m, t := 0, s, s;
    if acts == [] {
      AtFirst(s);
    } else {
      var n := |acts| - 1;
      var before := acts[..n];
      assert acts == before + [acts[n]];
      var p :| Reaches(s, before, p) && Enabled(p, acts[n]) && Step(p, acts[n]) == s';
      hide Reaches;
      k, m, t := FittingBatchIsKept(s, before, p);
      if SameTurn(s, before, p) {
        TurnGoesOn(s, before, p, acts[n]);
        k, m, t := n, p, s';
        if !SameTurn(s, acts, s') {
          EndsNow(s, before, p, acts[n]);
        }
      } else {
        EndedBefore(s, before, p, acts[n], k, m, t);
      }
    }
  }

  lemma EndsNow(s: State, acts: seq<Action>, m: State, a: Action)
    requires Roomy(s) && Reaches(s, acts, m) && SameTurn(s, acts, m)
    requires a.TrySend? && Enabled(m, a) && Passes(s, acts, m, Step(m, a))
    ensures EndedAt(s, acts + [a], Step(m, a), |acts|, m, Step(m, a))
  {
    hide Roomy, SameTurn, Passes, Step, Enabled;
    assert (acts + [a])[..|acts|] == acts && (acts + [a])[|acts| + 1..] == [];
  }

  lemma EndedBefore(s: State, acts: seq<Action>, p: State, a: Action, k: nat, m: State, t: State)
    requires Roomy(s) && EndedAt(s, acts, p, k, m, t) && Enabled(p, a)
    ensures EndedAt(s, acts + [a], Step(p, a), k, m, t)
  {
    hide Roomy, SameTurn, Passes, Step, Enabled, Reaches;
    var more := acts + [a];
    ReachesMore(t, acts[k + 1..], p, a);
    assert more[..k] == acts[..k] && more[k + 1..] == acts[k + 1..] + [a];
  }

  lemma AtFirst(s: State)
    requires Roomy(s)
    ensures SameTurn(s, [], s)
  {
  }

  // ---- A batch that is cut ---------------------------------------------------------------

  /** Events are missed only at a moment when the channel is full: then the subscriber keeps what it
      has of the batch and stays on the list. */
  lemma CutOnlyWhenFull(s: State)
    requires Inv(s) && Enabled(s, TrySend) && s.turn.value.at < |s.subs|
    ensures var s', at, sent := Send(s), s.turn.value.at, s.turn.value.sent;
            var sub, events := s.subs[at], Diff(s.prev, s.read.value);
            && (sent < |events| && sub.connected ==>
                  && s'.subs[at].snapshot == sub.snapshot
                  && (s'.subs[at].kept == sub.kept + [sent] <==> |sub.queue| == CHANNEL)
                  && Heard(s'.subs[at]) == Heard(sub) + if |sub.queue| == CHANNEL then [] else [events[sent]])
  {
    hide Diff;
    var sub := s.subs[s.turn.value.at];
    assert Heard(sub) + [] == Heard(sub);
    assert |sub.kept + [s.turn.value.sent]| != |sub.kept|;
  }

  /** At the moment of the k-th cut the subscriber's channel was full, with as many events taken. */
  ghost predicate WasFull(first: seq<Container>, acts: seq<Action>, sub: Subscriber, k: nat) {
    exists j: nat, m: State, at: nat :: FullAt(first, acts, sub, k, j, m, at)
  }

  ghost predicate FullAt(first: seq<Container>, acts: seq<Action>, sub: Subscriber, k: nat, j: nat, m: State, at: nat) {
    && j < |acts| && acts[j].TrySend? && Reaches(State(first, None, [], None), acts[..j], m)
    && k < |sub.kept| && k + 1 < |sub.polls| && m.turn == Some(Turn(at, sub.kept[k])) && at < |m.subs|
    && m.subs[at].connected && |m.subs[at].queue| == CHANNEL
    && m.subs[at].polls == sub.polls[..k + 1] && m.subs[at].kept == sub.kept[..k]
  }

  /** What a step makes of a subscriber's history: nothing, or one batch more. */
  ghost predicate Later(s: State, a: Action, was: Subscriber, sub: Subscriber, at: nat)
    requires Enabled(s, a)
  {
    || (sub.polls == was.polls && sub.kept == was.kept)
    || (s.read.Some? && sub.polls == was.polls + [s.read.value] && |sub.kept| == |was.kept| + 1
        && sub.kept[..|was.kept|] == was.kept && Latest(s, at) == s.prev
        && (sub.kept[|was.kept|] < |Diff(s.prev, s.read.value)| ==>
              && a.TrySend? && s.turn == Some(Turn(at, sub.kept[|was.kept|]))
              && was.connected && |was.queue| >= CHANNEL))
  }

  /** The place that a subscriber had before the step. */
  function Place(s: State, a: Action, i: nat): nat
    requires Enabled(s, a)
  {
    if |Step(s, a).subs| < |s.subs| && s.turn.Some? && i >= s.turn.value.at then i + 1 else i
  }

  lemma HistoryNext(s: State, a: Action, i: nat)
    requires Enabled(s, a) && i < |Step(s, a).subs|
    ensures var place := Place(s, a, i);
            if place < |s.subs| then Later(s, a, s.subs[place], Step(s, a).subs[i], place)
            else Step(s, a).subs[i].kept == []
  {
    hide Diff;
  }

  lemma LaterKeeps(s: State, a: Action, was: Subscriber, sub: Subscriber, at: nat)
    requires Enabled(s, a) && Later(s, a, was, sub, at)
    ensures was.polls <= sub.polls && was.kept <= sub.kept && |sub.kept| <= |was.kept| + 1
  {
  }

  lemma StillFull(first: seq<Container>, acts: seq<Action>, a: Action, was: Subscriber, sub: Subscriber, k: nat)
    requires WasFull(first, acts, was, k) && was.polls <= sub.polls && was.kept <= sub.kept
    ensures WasFull(first, acts + [a], sub, k)
  {
    var j: nat, m: State, at: nat :| FullAt(first, acts, was, k, j, m, at);
    hide Reaches;
    assert (acts + [a])[..j] == acts[..j] && (acts + [a])[j] == acts[j];
    assert sub.polls[..k + 1] == was.polls[..k + 1] && sub.kept[..k] == was.kept[..k];
    assert FullAt(first, acts + [a], sub, k, j, m, at);
  }

  lemma FullNow(first: seq<Container>, acts: seq<Action>, a: Action, m: State, at: nat, sub: Subscriber)
    requires Reaches(State(first, None, [], None), acts, m) && Inv(m) && Enabled(m, a) && at < |m.subs|
    requires Later(m, a, m.subs[at], sub, at)
    requires var k := |m.subs[at].kept|;
             |sub.kept| == k + 1 && k + 1 < |sub.polls| && sub.kept[k] < |Diff(sub.polls[k], sub.polls[k + 1])|
    ensures WasFull(first, acts + [a], sub, |m.subs[at].kept|)
  {
    hide Diff, Reaches, Inv;
    var was, k := m.subs[at], |m.subs[at].kept|;
    InvAt(m, at);
    hide Heard, Cuts;
    assert sub.polls[..k + 1] == was.polls && sub.kept[..k] == was.kept;
    assert (acts + [a])[..|acts|] == acts;
    assert FullAt(first, acts + [a], sub, k, |acts|, m, at);
  }

  /** In every run, a subscriber that missed events of a batch had a full channel at a moment when its
      receiver was there, and had taken as many events as it then kept. */
  lemma {:induction false} CutsWereFull(first: seq<Container>, acts: seq<Action>, s: State, i: nat, k: nat)
    requires Reaches(State(first, None, [], None), acts, s) && i < |s.subs| && k < |s.subs[i].kept|
    requires k + 1 < |s.subs[i].polls| && s.subs[i].kept[k] < |Diff(s.subs[i].polls[k], s.subs[i].polls[k + 1])|
    ensures WasFull(first, acts, s.subs[i], k)
    decreases |acts|
  {
    hide Diff, Step, Enabled, Later, WasFull, Inv;
    if acts != [] {
      var n := |acts| - 1;
      var before, a := acts[..n], acts[n];
      assert acts == before + [a];
      var m :| Reaches(State(first, None, [], None), before, m) && Enabled(m, a) && Step(m, a) == s;
      assert Run(before, m);
      RunInv(before, m);
      HistoryNext(m, a, i);
      var place, sub := Place(m, a, i), s.subs[i];
      var was := m.subs[place];
      LaterKeeps(m, a, was, sub, place);
      InvAt(m, place);
      hide InStep, Heard, Cuts;
      if k < |was.kept| {
        CutsWereFull(first, before, m, place, k);
        StillFull(first, before, a, was, sub, k);
      } else {
        FullNow(first, before, a, m, place, sub);
      }
    }
  }

  // ---- One batch, two runs ---------------------------------------------------------------

  /** k events of the batch in the channel of the only subscriber, who reads nothing. */
  function Queued(prev: seq<Container>, current: seq<Container>, k: nat): State
    requires k <= |Diff(prev, current)|
  {
    State(prev, Some(current), [Subscriber(Diff(prev, current)[..k], true, None, [], [prev], [])], Some(Turn(0, k)))
  }

  /** k events of the batch delivered to a client that reads each at once. */
  function Flowing(prev: seq<Container>, current: seq<Container>, k: nat): State
    requires k <= |Diff(prev, current)|
  {
    State(prev, Some(current), [Subscriber([], true, Some(prev), Diff(prev, current)[..k], [prev], [])],
          Some(Turn(0, k)))
  }

  lemma {:induction false} QueueUp(prev: seq<Container>, current: seq<Container>, k: nat) returns (acts: seq<Action>)
    requires k <= |Diff(prev, current)| && k <= CHANNEL && Diff(prev, current) != []
    ensures Reaches(State(prev, None, [], None), acts, Queued(prev, current, k))
  {
    hide Diff, Reaches;
    var s0 := State(prev, None, [], None);
    if k == 0 {
      var s1 := State(prev, None, [Fresh(prev)], None);
      var s2 := State(prev, Some(current), [Fresh(prev)], None);
      Three(s0, Subscribe, s1, PollRead(current), s2, PollDiff, Queued(prev, current, 0));
      acts := [Subscribe, PollRead(current), PollDiff];
    } else {
      var events := Diff(prev, current);
      acts := QueueUp(prev, current, k - 1);
      assert events[..k] == events[..k - 1] + [events[k - 1]];
      var s := Queued(prev, current, k - 1);
      assert Send(s).subs == Queued(prev, current, k).subs;
      ReachesMore(s0, acts, s, TrySend);
      acts := acts + [TrySend];
    }
  }

  lemma {:induction false} FlowOn(prev: seq<Container>, current: seq<Container>, k: nat) returns (acts: seq<Action>)
    requires k <= |Diff(prev, current)| && Diff(prev, current) != []
    ensures Reaches(State(prev, None, [], None), acts, Flowing(prev, current, k))
  {
    hide Diff, Reaches;
    var s0, read := State(prev, None, [], None), ReadSnapshot(0, prev);
    if k == 0 {
      var q := Queued(prev, current, 0);
      acts := QueueUp(prev, current, 0);
      assert Step(q, read).subs == Flowing(prev, current, 0).subs;
      ReachesMore(s0, acts, q, read);
      acts := acts + [read];
    } else {
      var events := Diff(prev, current);
      acts := FlowOn(prev, current, k - 1);
      assert events[..k] == events[..k - 1] + [events[k - 1]];
      var s := Flowing(prev, current, k - 1);
      var t := Send(s);
      assert [] + [events[k - 1]] == [events[k - 1]];
      assert t.subs == [s.subs[0].(queue := [events[k - 1]])];
      assert Delivered(t.subs[0]) == Flowing(prev, current, k).subs[0];
      ReachesMore(s0, acts, s, TrySend);
      assert Step(t, Deliver(0)).subs == Flowing(prev, current, k).subs;
      ReachesMore(s0, acts + [TrySend], t, Deliver(0));
      acts := acts + [TrySend] + [Deliver(0)];
    }
  }

  lemma Three(s0: State, a: Action, s1: State, b: Action, s2: State, c: Action, s3: State)
    requires Enabled(s0, a) && s1 == Step(s0, a) && Enabled(s1, b) && s2 == Step(s1, b)
    requires Enabled(s2, c) && s3 == Step(s2, c)
    ensures Reaches(s0, [a, b, c], s3)
  {
    hide Enabled, Step;
    assert Reaches(s0, [], s0);
    ReachesMore(s0, [], s0, a);
    ReachesMore(s0, [] + [a], s1, b);
    ReachesMore(s0, [] + [a] + [b], s2, c);
    assert [] + [a] + [b] + [c] == [a, b, c];
  }

  /** The last two steps of a broadcast to one subscriber. */
  lemma Finish(s0: State, acts: seq<Action>, s: State) returns (acts': seq<Action>, s': State)
    requires Reaches(s0, acts, s) && |s.subs| == 1 && s.read.Some? && s.turn.Some? && s.turn.value.at == 0
    requires var sub, n := s.subs[0], |Diff(s.prev, s.read.value)|;
             s.turn.value.sent >= n || (sub.connected && |sub.queue| >= CHANNEL)
    ensures Reaches(s0, acts', s')
    ensures s' == State(s.read.value, None, [Noted(s.subs[0], s.read.value, s.turn.value.sent)], None)
  {
    hide Diff, Reaches;
    var t := Send(s);
    ReachesMore(s0, acts, s, TrySend);
    ReachesMore(s0, acts + [TrySend], t, TrySend);
    acts', s' := acts + [TrySend] + [TrySend], Send(t);
  }

  /** Any batch of more than 256 events is cut for a subscriber that reads none of them. */
  lemma BatchIsCut(prev: seq<Container>, current: seq<Container>) returns (acts: seq<Action>, s: State)
    requires |Diff(prev, current)| > CHANNEL
    ensures Run(acts, s) && s.turn.None? && s.prev == current && |s.subs| == 1
    ensures var sub, events := s.subs[0], Diff(prev, current);
            && sub.connected && sub.polls == [prev, current] && Heard(sub) == events[..CHANNEL]
            && sub.kept == [CHANNEL] && 0 < CHANNEL < |events|
  {
    hide Diff, Reaches;
    acts := QueueUp(prev, current, CHANNEL);
    acts, s := Finish(State(prev, None, [], None), acts, Queued(prev, current, CHANNEL));
  }

  /** The same batch, of whatever size, arrives whole at a client that reads as it comes. */
  lemma BatchArrivesWhole(prev: seq<Container>, current: seq<Container>) returns (acts: seq<Action>, s: State)
    requires Diff(prev, current) != []
    ensures Run(acts, s) && s.turn.None? && s.prev == current && |s.subs| == 1
    ensures var sub, events := s.subs[0], Diff(prev, current);
            && sub.connected && sub.polls == [prev, current] && sub.delivered == Heard(sub) == events
            && sub.kept == [|events|]
  {
    hide Diff, Reaches;
    var events := Diff(prev, current);
    acts := FlowOn(prev, current, |events|);
    assert events[..|events|] == events;
    acts, s := Finish(State(prev, None, [], None), acts, Flowing(prev, current, |events|));
    assert s.subs[0].delivered + [] == events;
  }

  /** There are such batches: as many containers that start at once. */
  lemma {:induction false} AllStarted(current: seq<Container>)
    requires forall c <- current :: Runs(c)
    ensures |Diff([], current)| == |current|
  {
    if current != [] {
      AllStarted(current[1..]);
    }
  }
}
