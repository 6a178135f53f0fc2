/** A session makes progress until the host has finished, and it comes to an end. */
module ExecSessionEnds {
  import opened Bytes
  import opened ExecFrames
  import opened ExecSession
  import opened ExecSessionSafety
  import opened Wrappers

  /** A step that needs nothing from the user. */
  predicate Internal(a: Action) {
    a.OfHost? ==> !a.host.Type? && !a.host.TypeEof? && !a.host.Resize?
  }

  /** The command can go on to the guest, or the host learns that it was refused. */
  lemma UpCanMove(c: Config, s: State) returns (a: Action)
    requires NL !in c.command && c.capacity > 0 && CommandUnderWay(c, s.u) && s.g.phase.Reading?
    requires !s.h.phase.Finished? && DownBytes(s.d) == []
    ensures Enabled(c, s, a) && Internal(a)
  {
    hide DecodeOne, LineEnd;
    var u := s.u;
    assert (c.command + [NL])[|c.command|] == NL;
    if u.daemon.Dropped? {
      a := OfHost(HostEof);
    } else if u.daemon.Peeking? {
      assert u.socket == [] ==> u.peeked == c.command + [NL];
      a := OfWire(DaemonPeek);
    } else if u.vsock != [] {
      a := OfWire(GuestFill(|u.vsock|));
    } else if u.socket != [] {
      a := OfWire(ProxyUp(1));
    } else {
      assert u.readAhead == c.command + [NL];
      a := OfGuest(GuestLine);
    }
  }

  /** A guest that has said its last word has it still under way while the host has not finished. */
  lemma LastWordIsUnderWay(c: Config, s: State)
    requires Sound(c) && Inv(c, s) && !s.h.phase.Finished? && DownBytes(s.d) == []
    ensures !s.g.phase.Exited? && !s.g.phase.Failed?
  {
    NothingUnderWay(c, s.d, s.w.lines, s.w.frames);
  }

  /** With nothing under way down, the guest or the wires up can move. */
  lemma GuestCanMove(c: Config, s: State) returns (a: Action)
    requires Sound(c) && Inv(c, s) && !s.h.phase.Finished? && DownBytes(s.d) == []
    ensures Enabled(c, s, a) && Internal(a)
  {
    hide LinesOf, EncodeAll, DataOf, DecodeOne, LineEnd, DownWire, CommandUnderWay, InputAddsUp, Sum,
         FramesInOrder;
    var g := s.g;
    assert s.d.writing == [];
    LastWordIsUnderWay(c, s);
    match g.phase
    case Reading => a := UpCanMove(c, s);
    case Pulling =>
      a := OfGuest(if g.pulled < |c.pulls| then SendProgress
                   else if c.pullError.Some? then SendPullError else SendReady);
    case Framed =>
      a := OfGuest(if c.spawnError.Some? then SendSpawnError
                   else if g.outAt < |c.childOut| then SendOut(1)
                   else if g.errAt < |c.childErr| then SendErr(1)
                   else if !g.outEof then OutEof
                   else if !g.errEof then ErrEof
                   else SendExit);
  }

  lemma LineWaits(c: Config, lines: seq<Response>, frames: seq<Frame>)
    requires lines == [] ==> frames == []
    requires LinesOf(c, lines) + EncodeAll(frames) != []
    ensures NL in LinesOf(c, lines) + EncodeAll(frames)
  {
    assert LinesOf(c, []) + EncodeAll([]) == [];
    assert LineOf(c, lines[0])[|c.json(lines[0])|] == NL;
    assert NL in LinesOf(c, lines);
  }

  lemma FrameWaits(c: Config, frames: seq<Frame>)
    requires frames != [] ==> Fits(frames[0])
    requires LinesOf(c, []) + EncodeAll(frames) != []
    ensures DecodeOne(LinesOf(c, []) + EncodeAll(frames)).Some?
  {
    assert LinesOf(c, []) + EncodeAll(frames) == EncodeAll(frames);
    assert frames != [];
    DecodeEncode(frames[0], EncodeAll(frames[1..]));
  }

  /** The wires and the host can always move what is under way down. */
  lemma DownCanMove(c: Config, s: State) returns (a: Action)
    requires Sound(c) && Inv(c, s) && !s.h.phase.Finished? && DownBytes(s.d) != []
    ensures Enabled(c, s, a) && Internal(a)
  {
    hide DataOf, LineEnd, LinesOf, EncodeAll, DecodeOne, Sum, Inputs, OutputsAddUp;
    var d := s.d;
    if d.socket != [] {
      a := OfWire(HostFill(|d.socket|));
    } else if d.vsock != [] {
      a := OfWire(ProxyDown(1));
    } else if d.writing != [] {
      a := OfGuest(WriteSome(1));
    } else if s.h.phase.Waiting? {
      assert d.hostBuf == LinesOf(c, s.w.lines) + EncodeAll(s.w.frames);
      LineWaits(c, s.w.lines, s.w.frames);
      a := OfHost(HostLine);
    } else {
      assert d.hostBuf == LinesOf(c, []) + EncodeAll(s.w.frames);
      if s.w.frames != [] {
        ShowInOrder(c, s.g.phase, s.w.frames);
      }
      FrameWaits(c, s.w.frames);
      a := OfHost(HostFrame);
    }
  }

  /** Until the host has finished, some step is possible that needs no input from the user, however
      full the channels are. */
  lemma NeverStuck(c: Config, ss: seq<State>, acts: seq<Action>, i: nat) returns (a: Action)
    requires Run(c, ss, acts) && i <= |acts| && !ss[i].h.phase.Finished?
    ensures Enabled(c, ss[i], a) && Internal(a)
  {
    RunInv(c, ss, acts, i);
    hide Inv, Enabled;
    if DownBytes(ss[i].d) == [] {
      a := GuestCanMove(c, ss[i]);
    } else {
      a := DownCanMove(c, ss[i]);
    }
  }

  // ---- Every step brings the end nearer --------------------------------------------------

  /** Each byte is moved a bounded number of times; the further it still has to go, the more it
      counts. */
  function UpLeft(u: Up): nat {
    4 * |u.socket| + (if u.daemon.Proxying? then 0 else 3 * |u.peeked|) + 2 * |u.vsock| + |u.readAhead|
  }

  function DownLeft(d: Down): nat {
    4 * |d.writing| + 3 * |d.vsock| + 2 * |d.socket| + |d.hostBuf|
  }

  /** Progress lines not yet begun. */
  function PullsLeft(c: Config, k: nat): nat
    decreases |c.pulls| - k
  {
    if k >= |c.pulls| then 0 else 4 * |LineOf(c, Progress(c.pulls[k]))| + 1 + PullsLeft(c, k + 1)
  }

  function ClosingLeft(c: Config): nat {
    4 * |LineOf(c, if c.pullError.Some? then Error(c.pullError.value) else Ready)| + 1
  }

  function Remaining(n: nat, at: nat): nat {
    if at < n then n - at else 0
  }

  function Unless(done: bool): nat {
    if done then 0 else 1
  }

  const EXIT_LEFT: nat := 37

  /** Output not yet begun; the smallest frame carries one byte after its header of five. */
  function OutputLeft(c: Config, g: Guest): nat {
    (if c.spawnError.Some? then 4 * (5 + |c.spawnError.value|) else 0)
    + 25 * Remaining(|c.childOut|, g.outAt) + 25 * Remaining(|c.childErr|, g.errAt)
    + Unless(g.outEof) + Unless(g.errEof) + EXIT_LEFT
  }

  function GuestLeft(c: Config, g: Guest): nat {
    match g.phase
    case Reading => PullsLeft(c, g.pulled) + ClosingLeft(c) + OutputLeft(c, g) + 1
    case Pulling => PullsLeft(c, g.pulled) + ClosingLeft(c) + OutputLeft(c, g)
    case Framed => OutputLeft(c, g)
    case Exited => 0
    case Failed => 0
  }

  /** An upper bound on the steps that are left without further input from the user. */
  function Left(c: Config, s: State): nat {
    UpLeft(s.u) + DownLeft(s.d) + GuestLeft(c, s.g) + Unless(s.h.phase.Finished?)
  }

  /** What a frame of input may cost: the step that sends it and those that carry it on. */
  function Cost(a: Action): nat {
    match a
    case OfHost(Type(chunk)) => 4 * (5 + |chunk|) + 1
    case OfHost(TypeEof) => 21
    case OfHost(Resize(size)) => 4 * (5 + |size|) + 1
    case _ => 0
  }

  function Costs(acts: seq<Action>): nat {
    if acts == [] then 0 else Costs(acts[..|acts| - 1]) + Cost(acts[|acts| - 1])
  }

  lemma PeekPays(u: Up)
    requires u.daemon.Peeking? && u.socket != []
    ensures UpLeft(Peek(u)) < UpLeft(u)
  {
  }

  lemma WirePays(c: Config, s: State, a: WireAction)
    requires WireEnabled(c, s, a)
    ensures Left(c, WireStep(c, s, a)) < Left(c, s)
  {
    hide GuestLeft, Peek;
    if a.DaemonPeek? {
      PeekPays(s.u);
    }
  }

  lemma TakenIsShorter(s: seq<byte>)
    requires DecodeOne(s).Some?
    ensures |DecodeOne(s).value.1| < |s|
  {
  }

  lemma FrameLength(f: Frame)
    ensures |Encode(f)| == 5 + |f.data|
  {
  }

  lemma HostPays(c: Config, s: State, a: HostAction)
    requires HostEnabled(c, s, a)
    ensures Left(c, HostStep(c, s, a)) + 1 <= Left(c, s) + Cost(OfHost(a))
  {
    hide GuestLeft, LineEnd, DecodeOne, Encode, Show, Hear;
    match a
    case HostLine =>
    case HostFrame => TakenIsShorter(s.d.hostBuf);
    case HostEof =>
    case Type(chunk) => FrameLength(Frame(FRAME_STDIN, chunk));
    case TypeEof => FrameLength(EOF_FRAME);
    case Resize(size) => FrameLength(Frame(FRAME_RESIZE, size));
  }

  /** Taking a line or a frame of input, or ending a stream. */
  lemma TakingPays(c: Config, s: State, a: GuestAction)
    requires CodeFits(c) && GuestEnabled(c, s, a)
    requires a.GuestLine? || a.OutEof? || a.ErrEof? || a.WriteSome? || a.GuestFrame? || a.GuestFrameBroken?
    ensures Left(c, GuestStep(c, s, a)) < Left(c, s)
  {
    hide LineEnd, DecodeOne, PullsLeft, ClosingLeft;
    if a.GuestFrame? || a.GuestFrameBroken? {
      TakenIsShorter(s.u.vsock);
    }
  }

  /** Beginning a line. */
  lemma LinePays(c: Config, s: State, a: GuestAction)
    requires CodeFits(c) && GuestEnabled(c, s, a) && (a.SendProgress? || a.SendPullError? || a.SendReady?)
    ensures Left(c, GuestStep(c, s, a)) < Left(c, s)
  {
    hide LineOf, OutputLeft;
    SameOutputLeft(c, s.g, GuestStep(c, s, a).g);
  }

  lemma SameOutputLeft(c: Config, g: Guest, g': Guest)
    requires g'.outAt == g.outAt && g'.errAt == g.errAt && g'.outEof == g.outEof && g'.errEof == g.errEof
    ensures OutputLeft(c, g') == OutputLeft(c, g)
  {
  }

  /** Beginning a frame. */
  lemma FramePays(c: Config, s: State, a: GuestAction)
    requires CodeFits(c) && GuestEnabled(c, s, a)
    requires a.SendSpawnError? || a.SendOut? || a.SendErr? || a.SendExit?
    ensures Left(c, GuestStep(c, s, a)) < Left(c, s)
  {
    hide Encode, I32Be, UpLeft;
    match a
    case SendSpawnError =>
      FrameLength(Frame(FRAME_STDERR, c.spawnError.value));
      FrameLength(Frame(FRAME_EXIT, I32Be(1)));
    case SendOut(n) => FrameLength(Frame(FRAME_STDOUT, c.childOut[s.g.outAt..s.g.outAt + n]));
    case SendErr(n) => FrameLength(Frame(FRAME_STDERR, c.childErr[s.g.errAt..s.g.errAt + n]));
    case SendExit => FrameLength(Frame(FRAME_EXIT, I32Be(c.childCode)));
  }

  lemma StepPays(c: Config, s: State, a: Action)
    requires CodeFits(c) && Enabled(c, s, a)
    ensures Left(c, Step(c, s, a)) + 1 <= Left(c, s) + Cost(a)
  {
    hide Left, WireStep, GuestStep, HostStep, WireEnabled, GuestEnabled, HostEnabled;
    match a
    case OfWire(w) => WirePays(c, s, w);
    case OfHost(h) => HostPays(c, s, h);
    case OfGuest(g) =>
      if g.SendProgress? || g.SendPullError? || g.SendReady? {
        LinePays(c, s, g);
      } else if g.SendSpawnError? || g.SendOut? || g.SendErr? || g.SendExit? {
        FramePays(c, s, g);
      } else {
        TakingPays(c, s, g);
      }
  }

  lemma {:induction false} RunPays(c: Config, ss: seq<State>, acts: seq<Action>, i: nat)
    requires Run(c, ss, acts) && i <= |acts|
    ensures i + Left(c, ss[i]) <= Left(c, Start(c)) + Costs(acts[..i])
  {
    hide Left, Step, Enabled, Cost;
    if i > 0 {
      RunPays(c, ss, acts, i - 1);
      StepPays(c, ss[i - 1], acts[i - 1]);
      assert acts[..i][..i - 1] == acts[..i - 1];
    }
  }

  /** No run goes on for ever: its length is bounded by what was there at the start and what the
      user typed.  Where it cannot go on without the user, the host has finished. */
  lemma SessionsEnd(c: Config, ss: seq<State>, acts: seq<Action>)
    requires Run(c, ss, acts)
    ensures |acts| <= Left(c, Start(c)) + Costs(acts)
    ensures (forall a | Internal(a) :: !Enabled(c, ss[|acts|], a)) ==> ss[|acts|].h.phase.Finished?
  {
    hide Left, Enabled, Internal, Step;
    RunPays(c, ss, acts, |acts|);
    assert acts[..|acts|] == acts;
    if !ss[|acts|].h.phase.Finished? {
      var a := NeverStuck(c, ss, acts, |acts|);
    }
  }

  lemma RunSnoc(c: Config, ss: seq<State>, acts: seq<Action>, a: Action)
    requires Run(c, ss, acts) && Enabled(c, ss[|acts|], a)
    ensures Run(c, ss + [Step(c, ss[|acts|], a)], acts + [a])
  {
    hide Enabled, Step;
  }

  /** Left alone, a session that has got anywhere ends as it should: with EXIT, both streams in full
      and the child's code, or with the failed pull or refused command that it started with. */
  lemma {:induction false} EndsLeftAlone(c: Config, ss: seq<State>, acts: seq<Action>)
    returns (ss': seq<State>, acts': seq<Action>)
    requires Run(c, ss, acts)
    ensures Run(c, ss', acts') && acts <= acts' && forall a <- acts'[|acts|..] :: Internal(a)
    ensures |acts'| - |acts| <= Left(c, ss[|acts|])
    ensures var h := ss'[|acts'|].h;
            if c.pullError.Some? || |c.command| > FIRST_LINE_MAX then
              h.phase == Finished(1, false) && h.out == [] && h.err == []
            else
              h.phase == Finished(WantCode(c), true) && h.out == WantOut(c) && h.err == WantErr(c)
    decreases Left(c, ss[|acts|])
  {
    hide Left, Enabled, Internal, Step, Cost;
    var s := ss[|acts|];
    if s.h.phase.Finished? {
      ss', acts' := ss, acts;
      EndsByExit(c, ss, acts, |acts|);
      OutputIsFaithful(c, ss, acts, |acts|);
    } else {
      var a := NeverStuck(c, ss, acts, |acts|);
      RunSnoc(c, ss, acts, a);
      StepPays(c, s, a);
      InternalIsFree(a);
      ss', acts' := EndsLeftAlone(c, ss + [Step(c, s, a)], acts + [a]);
      assert acts'[|acts|] == a;
      assert acts'[|acts|..] == [a] + acts'[|acts| + 1..];
    }
  }

  lemma InternalIsFree(a: Action)
    requires Internal(a)
    ensures Cost(a) == 0
  {
  }
}
