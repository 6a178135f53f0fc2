/** What every run of an exec session keeps, and what follows from it for the two ends. */
module ExecSessionSafety {
  import opened Bytes
  import opened ExecFrames
  import opened ExecSession
  import opened Wrappers

  // ---- The invariant: the byte channels refine queues of messages ------------------------

  function Told(texts: seq<seq<byte>>): seq<Response> {
    seq(|texts|, i requires 0 <= i < |texts| => Progress(texts[i]))
  }

  function DownBytes(d: Down): seq<byte> {
    d.hostBuf + d.socket + d.vsock + d.writing
  }

  /** Bytes and messages on the way down are the same thing. */
  ghost predicate DownWire(c: Config, d: Down, lines: seq<Response>, frames: seq<Frame>) {
    DownBytes(d) == LinesOf(c, lines) + EncodeAll(frames)
  }

  function Closing(c: Config, guest: GuestPhase): seq<Response> {
    match guest
    case Reading => []
    case Pulling => []
    case Framed => [Ready]
    case Exited => [Ready]
    case Failed => if c.pullError.Some? then [Error(c.pullError.value)] else []
  }

  /** Progress first, then one line that ends the JSON part. */
  ghost predicate LinesInOrder(c: Config, guest: GuestPhase, host: HostPhase, pulled: nat,
                               shown: seq<seq<byte>>, lines: seq<Response>)
  {
    && pulled <= |c.pulls| && |shown| <= pulled && shown == c.pulls[..|shown|]
    && (guest.Reading? ==> pulled == 0)
    && match host
       case Waiting => lines == Told(c.pulls[|shown|..pulled]) + Closing(c, guest)
       case Streaming => lines == []
       case Finished(_, byExit) => byExit ==> lines == []
  }

  function ExitFrame(c: Config): Frame
    requires CodeFits(c)
  {
    Frame(FRAME_EXIT, I32Be(WantCode(c)))
  }

  /** Output frames, then EXIT with the code as the last frame of all. */
  ghost predicate FramesInOrder(c: Config, guest: GuestPhase, host: HostPhase, frames: seq<Frame>)
    requires CodeFits(c)
  {
    match guest
    case Framed => forall f <- frames :: IsOutput(f)
    case Exited =>
      if host.Finished? then frames == []
      else
        && frames != [] && frames[|frames| - 1] == ExitFrame(c)
        && forall f <- frames[..|frames| - 1] :: IsOutput(f)
    case _ => frames == []
  }

  ghost predicate HostEnds(c: Config, guest: GuestPhase, host: HostPhase, daemon: DaemonPhase) {
    match host
    case Waiting => true
    case Streaming => guest.Framed? || guest.Exited?
    case Finished(code, true) => guest.Exited? && code == WantCode(c)
    case Finished(code, false) => code == 1 && (guest.Failed? || daemon.Dropped?)
  }

  /** What the phases of the two sides have to do with each other. */
  ghost predicate Phases(c: Config, guest: GuestPhase, daemon: DaemonPhase, pulled: nat, d: Down) {
    && (guest.Reading? ==> d.writing == [] && d.vsock == [])
    && (!daemon.Proxying? ==> guest.Reading?)
    && (guest.Failed? ==> c.pullError.Some?)
    && (guest.Framed? || guest.Exited? ==> c.pullError.None? && pulled == |c.pulls|)
  }

  ghost predicate Queues(c: Config, s: State)
    requires CodeFits(c)
  {
    && LinesInOrder(c, s.g.phase, s.h.phase, s.g.pulled, s.h.shown, s.w.lines)
    && FramesInOrder(c, s.g.phase, s.h.phase, s.w.frames)
    && HostEnds(c, s.g.phase, s.h.phase, s.u.daemon)
    && Phases(c, s.g.phase, s.u.daemon, s.g.pulled, s.d)
  }

  ghost predicate ReadSoFar(c: Config, guest: GuestPhase, outAt: nat, errAt: nat, outEof: bool, errEof: bool) {
    && outAt <= |c.childOut| && errAt <= |c.childErr|
    && (outEof ==> outAt == |c.childOut|) && (errEof ==> errAt == |c.childErr|)
    && (c.spawnError.Some? || guest.Reading? || guest.Pulling? || guest.Failed? ==> outAt == 0 && errAt == 0)
    && (guest.Exited? && c.spawnError.None? ==> outEof && errEof)
  }

  function ErrSent(c: Config, guest: GuestPhase, errAt: nat): seq<byte>
    requires errAt <= |c.childErr|
  {
    if c.spawnError.None? then c.childErr[..errAt]
    else if guest.Exited? then c.spawnError.value
    else []
  }

  /** One output stream: what is shown and what is on the way. */
  function Sum(shown: seq<byte>, kind: byte, frames: seq<Frame>): seq<byte> {
    shown + DataOf(kind, frames)
  }

  /** Each output stream by itself: what is shown and what is on the way is what was read. */
  ghost predicate OutputsAddUp(c: Config, s: State) {
    && ReadSoFar(c, s.g.phase, s.g.outAt, s.g.errAt, s.g.outEof, s.g.errEof)
    && Sum(s.h.out, FRAME_STDOUT, s.w.frames) == c.childOut[..s.g.outAt]
    && Sum(s.h.err, FRAME_STDERR, s.w.frames) == ErrSent(c, s.g.phase, s.g.errAt)
  }

  /** The command is under way to the guest, alone. */
  ghost predicate CommandUnderWay(c: Config, u: Up) {
    if u.daemon.Proxying? then u.readAhead + u.vsock + u.socket == c.command + [NL]
    else
      && u.peeked + u.socket == c.command + [NL] && NL !in u.peeked && u.vsock == [] && u.readAhead == []
      && (u.daemon.Peeking? ==> |u.peeked| <= FIRST_LINE_MAX)
  }

  /** The daemon lets the command through exactly when it is no longer than its bound. */
  predicate LengthChecked(c: Config, daemon: DaemonPhase) {
    && (daemon.Dropped? ==> |c.command| > FIRST_LINE_MAX)
    && (daemon.Proxying? ==> |c.command| <= FIRST_LINE_MAX)
  }

  predicate IsInput(f: Frame) {
    Fits(f) && (f.kind == FRAME_RESIZE || (f.kind == FRAME_STDIN && f.data != []))
  }

  /** The child's input and what is on the way to it are what the host read. */
  ghost predicate InputAddsUp(toGuest: seq<Frame>, childIn: seq<byte>, stdin: StdinPhase,
                              typed: seq<byte>, typedEof: bool)
  {
    match stdin
    case Open =>
      && Sum(childIn, FRAME_STDIN, toGuest) == typed
      && if typedEof then
           && toGuest != [] && toGuest[|toGuest| - 1] == EOF_FRAME
           && forall f <- toGuest[..|toGuest| - 1] :: IsInput(f)
         else forall f <- toGuest :: IsInput(f)
    case AtEof => childIn == typed && typedEof && toGuest == []
    case Broken => childIn <= typed
  }

  ghost predicate UpInOrder(c: Config, u: Up, guest: GuestPhase, toGuest: seq<Frame>, quiet: bool) {
    && u.lost == [] && LengthChecked(c, u.daemon)
    && match guest
       case Reading => CommandUnderWay(c, u) && quiet
       case Pulling => u.socket == [] && u.vsock == [] && u.daemon.Proxying? && u.readAhead == [] && quiet
       case _ => u.vsock + u.socket == EncodeAll(toGuest) && u.daemon.Proxying? && u.readAhead == []
  }

  /** Nothing has been typed yet. */
  predicate Quiet(s: State) {
    s.w.toGuest == [] && s.g.childIn == [] && s.g.stdin.Open? && s.h.typed == [] && !s.h.typedEof
  }

  ghost predicate Inputs(c: Config, s: State) {
    && UpInOrder(c, s.u, s.g.phase, s.w.toGuest, Quiet(s))
    && InputAddsUp(s.w.toGuest, s.g.childIn, s.g.stdin, s.h.typed, s.h.typedEof)
  }

  ghost predicate Inv(c: Config, s: State)
    requires CodeFits(c)
  {
    && Queues(c, s) && OutputsAddUp(c, s) && Inputs(c, s)
    && (!s.h.phase.Finished? ==> DownWire(c, s.d, s.w.lines, s.w.frames))
  }

  // ---- Lines, frames and bytes -----------------------------------------------------------

  lemma Regroup(a: seq<byte>, b: seq<byte>, c: seq<byte>)
    ensures a + (b + c) == (a + b) + c
  {
  }

  lemma Moved(a: seq<byte>, b: seq<byte>, n: nat)
    requires n <= |b|
    ensures a + b == (a + b[..n]) + b[n..]
  {
  }

  lemma LineEndUnique(w: seq<byte>, i: nat, j: nat)
    requires i < |w| && w[i] == NL && NL !in w[..i]
    requires j < |w| && w[j] == NL && NL !in w[..j]
    ensures i == j
  {
    assert forall k :: 0 <= k < j ==> w[k] == w[..j][k];
    assert forall k :: 0 <= k < i ==> w[k] == w[..i][k];
  }

  lemma FirstLine(line: seq<byte>, more: seq<byte>, buf: seq<byte>, rest: seq<byte>)
    requires NL !in line && buf + rest == line + [NL] + more && NL in buf
    ensures LineEnd(buf) == |line| && buf[..|line|] == line && buf[|line| + 1..] + rest == more
  {
    var w := line + [NL] + more;
    LineEndUnique(w, LineEnd(buf), |line|) by {
      assert w[..LineEnd(buf)] == buf[..LineEnd(buf)];
      assert w[..|line|] == line;
    }
    assert w[|line| + 1..] == more;
    assert buf[..|line|] == w[..|line|];
    assert (buf + rest)[|line| + 1..] == buf[|line| + 1..] + rest;
  }

  lemma FirstFrame(g: Frame, more: seq<byte>, buf: seq<byte>, rest: seq<byte>)
    requires Fits(g) && buf + rest == Encode(g) + more && DecodeOne(buf).Some?
    ensures DecodeOne(buf).value.0 == g && DecodeOne(buf).value.1 + rest == more
  {
    DecodeEncode(g, more);
    var w := buf + rest;
    assert w[1..5] == buf[1..5];
    var n := FromU32Be(buf[1..5]);
    assert w[5..5 + n] == buf[5..5 + n];
    assert w[5 + n..] == buf[5 + n..] + rest;
  }

  lemma {:induction false} LinesOfSnoc(c: Config, rs: seq<Response>, r: Response)
    ensures LinesOf(c, rs + [r]) == LinesOf(c, rs) + LineOf(c, r)
  {
    if rs == [] {
      assert LinesOf(c, [r]) == LineOf(c, r) + LinesOf(c, []);
    } else {
      assert (rs + [r])[1..] == rs[1..] + [r];
      LinesOfSnoc(c, rs[1..], r);
    }
  }

  lemma {:induction false} DataOfSnoc(kind: byte, fs: seq<Frame>, f: Frame)
    ensures DataOf(kind, fs + [f]) == DataOf(kind, fs) + if f.kind == kind then f.data else []
  {
    if fs != [] {
      assert (fs + [f])[1..] == fs[1..] + [f];
      DataOfSnoc(kind, fs[1..], f);
    }
  }

  lemma SumSnoc(shown: seq<byte>, kind: byte, fs: seq<Frame>, f: Frame)
    ensures Sum(shown, kind, fs + [f]) == Sum(shown, kind, fs) + if f.kind == kind then f.data else []
  {
    DataOfSnoc(kind, fs, f);
    Regroup(shown, DataOf(kind, fs), if f.kind == kind then f.data else []);
  }

  lemma SumTake(shown: seq<byte>, kind: byte, fs: seq<Frame>)
    requires fs != []
    ensures Sum(shown, kind, fs) == Sum(shown + if fs[0].kind == kind then fs[0].data else [], kind, fs[1..])
  {
    Regroup(shown, if fs[0].kind == kind then fs[0].data else [], DataOf(kind, fs[1..]));
  }

  lemma FrameBegun(c: Config, d: Down, lines: seq<Response>, frames: seq<Frame>, f: Frame)
    requires DownWire(c, d, lines, frames)
    ensures DownWire(c, d.(writing := d.writing + Encode(f)), lines, frames + [f])
  {
    EncodeAllSnoc(frames, f);
    Regroup(d.hostBuf + d.socket + d.vsock, d.writing, Encode(f));
    Regroup(LinesOf(c, lines), EncodeAll(frames), Encode(f));
  }

  lemma LineBegun(c: Config, d: Down, lines: seq<Response>, r: Response)
    requires DownWire(c, d, lines, []) && d.writing == []
    ensures DownWire(c, d.(writing := LineOf(c, r)), lines + [r], [])
  {
    LinesOfSnoc(c, lines, r);
    var line := LineOf(c, r);
    assert DownBytes(d.(writing := line)) == DownBytes(d) + line;
    assert LinesOf(c, lines + [r]) + [] == LinesOf(c, lines) + [] + line;
  }

  // ---- Bytes that move along the channels ------------------------------------------------

  lemma DownMoves(c: Config, d: Down, d': Down, lines: seq<Response>, frames: seq<Frame>)
    requires DownWire(c, d, lines, frames) && DownBytes(d') == DownBytes(d)
    ensures DownWire(c, d', lines, frames)
  {
  }

  lemma PeekedOne(command: seq<byte>, peeked: seq<byte>, b: byte, rest: seq<byte>)
    requires peeked + ([b] + rest) == command + [NL] && NL !in peeked && NL !in command
    ensures if b == NL then peeked == command && rest == [] else |peeked| < |command|
  {
    var w := command + [NL];
    assert w[|peeked|] == b && w[|command|] == NL;
    if b == NL {
      LineEndUnique(w, |peeked|, |command|) by {
        assert w[..|peeked|] == peeked && w[..|command|] == command;
      }
      assert w[..|peeked|] == peeked;
    }
  }

  lemma PeekInOrder(c: Config, u: Up)
    requires NL !in c.command && u.daemon.Peeking? && u.socket != [] && CommandUnderWay(c, u)
    ensures CommandUnderWay(c, Peek(u)) && LengthChecked(c, Peek(u).daemon)
  {
    assert u.socket == [u.socket[0]] + u.socket[1..];
    PeekedOne(c.command, u.peeked, u.socket[0], u.socket[1..]);
    Regroup(u.peeked, [u.socket[0]], u.socket[1..]);
  }

  lemma DownWireInv(c: Config, s: State, a: WireAction)
    requires Sound(c) && Inv(c, s) && WireEnabled(c, s, a) && (a.ProxyDown? || a.HostFill?)
    ensures Inv(c, WireStep(c, s, a))
  {
    hide DownWire, Queues, OutputsAddUp, Inputs;
    var d, d' := s.d, WireStep(c, s, a).d;
    if a.ProxyDown? {
      Moved(d.hostBuf + d.socket, d.vsock, a.n);
      Regroup(d.hostBuf, d.socket, d.vsock[..a.n]);
    } else {
      Moved(d.hostBuf, d.socket, a.n);
    }
    if !s.h.phase.Finished? {
      DownMoves(c, d, d', s.w.lines, s.w.frames);
    }
    SameQueues(c, s, WireStep(c, s, a));
  }

  lemma SameQueues(c: Config, s: State, t: State)
    requires CodeFits(c) && Queues(c, s) && OutputsAddUp(c, s) && Inputs(c, s)
    requires t == s.(d := t.d) && (s.d.vsock == [] ==> t.d.vsock == []) && (s.d.writing == [] ==> t.d.writing == [])
    ensures Queues(c, t) && OutputsAddUp(c, t) && Inputs(c, t)
  {
    hide LinesInOrder, FramesInOrder, HostEnds, ReadSoFar, Sum, UpInOrder, InputAddsUp;
  }

  lemma WireInv(c: Config, s: State, a: WireAction)
    requires Sound(c) && Inv(c, s) && WireEnabled(c, s, a)
    ensures Inv(c, WireStep(c, s, a))
  {
    var u, d := s.u, s.d;
    match a
    case DaemonPeek => PeekInOrder(c, u);
    case ProxyUp(n) =>
      Moved(u.vsock, u.socket, n);
      Regroup(u.readAhead, u.vsock, u.socket);
      Regroup(u.readAhead, u.vsock + u.socket[..n], u.socket[n..]);
    case GuestFill(n) =>
      Moved(u.readAhead, u.vsock, n);
    case _ => DownWireInv(c, s, a);
  }

  // ---- The guest's steps -----------------------------------------------------------------

  lemma GuestLineInv(c: Config, s: State)
    requires Sound(c) && Inv(c, s) && GuestEnabled(c, s, GuestLine)
    ensures Inv(c, GuestStep(c, s, GuestLine))
  {
    var u := s.u;
    assert u.daemon.Proxying?;
    Regroup(u.readAhead, u.vsock, u.socket);
    assert u.readAhead + (u.vsock + u.socket) == c.command + [NL] + [];
    FirstLine(c.command, [], u.readAhead, u.vsock + u.socket);
  }

  lemma ProgressSent(c: Config, host: HostPhase, pulled: nat, shown: seq<seq<byte>>, lines: seq<Response>)
    requires LinesInOrder(c, Pulling, host, pulled, shown, lines) && pulled < |c.pulls| && !host.Streaming?
    requires !(host.Finished? && host.byExit)
    ensures LinesInOrder(c, Pulling, host, pulled + 1, shown, lines + [Progress(c.pulls[pulled])])
  {
    var k := |shown|;
    assert Told(c.pulls[k..pulled + 1]) == Told(c.pulls[k..pulled]) + [Progress(c.pulls[pulled])];
  }

  lemma ClosingSent(c: Config, host: HostPhase, pulled: nat, shown: seq<seq<byte>>, lines: seq<Response>,
                    guest: GuestPhase)
    requires LinesInOrder(c, Pulling, host, pulled, shown, lines) && !host.Streaming?
    requires !(host.Finished? && host.byExit) && (guest.Framed? || guest.Failed?)
    ensures LinesInOrder(c, guest, host, pulled, shown, lines + Closing(c, guest))
  {
    var told := Told(c.pulls[|shown|..pulled]);
    assert told + [] + Closing(c, guest) == told + Closing(c, guest);
  }

  lemma ProgressInv(c: Config, s: State)
    requires Sound(c) && Inv(c, s) && GuestEnabled(c, s, SendProgress)
    ensures Inv(c, GuestStep(c, s, SendProgress))
  {
    hide DownWire, LinesInOrder, DataOf, LinesOf, EncodeAll, DecodeOne, LineEnd, Sum, InputAddsUp;
    ProgressSent(c, s.h.phase, s.g.pulled, s.h.shown, s.w.lines);
    if !s.h.phase.Finished? {
      LineBegun(c, s.d, s.w.lines, Progress(c.pulls[s.g.pulled]));
    }
  }

  /** The buffered reader is empty when it is dropped. */
  lemma UpAtSwitch(c: Config, s: State)
    requires UpInOrder(c, s.u, Pulling, s.w.toGuest, Quiet(s))
    ensures s.u.readAhead == [] && Quiet(s)
    ensures UpInOrder(c, s.u.(lost := s.u.readAhead, readAhead := []), Framed, s.w.toGuest, Quiet(s))
    ensures UpInOrder(c, s.u, Failed, s.w.toGuest, Quiet(s))
  {
    assert EncodeAll([]) == [];
  }

  /** The line that ends the JSON part of the session: Ready, or the error of the pull. */
  lemma ClosingInv(c: Config, s: State, a: GuestAction)
    requires Sound(c) && Inv(c, s) && GuestEnabled(c, s, a) && (a.SendPullError? || a.SendReady?)
    ensures Inv(c, GuestStep(c, s, a))
  {
    hide DownWire, LinesInOrder, DataOf, LinesOf, EncodeAll, DecodeOne, LineEnd, Sum, InputAddsUp, LineOf, UpInOrder;
    UpAtSwitch(c, s);
    var r, guest := if a.SendReady? then Ready else Error(c.pullError.value), if a.SendReady? then Framed else Failed;
    ClosingSent(c, s.h.phase, s.g.pulled, s.h.shown, s.w.lines, guest);
    if !s.h.phase.Finished? {
      LineBegun(c, s.d, s.w.lines, r);
    }
  }

  lemma FrameSent(c: Config, host: HostPhase, frames: seq<Frame>, f: Frame)
    requires CodeFits(c) && FramesInOrder(c, Framed, host, frames) && !host.Finished?
    ensures IsOutput(f) ==> FramesInOrder(c, Framed, host, frames + [f])
    ensures f == ExitFrame(c) ==> FramesInOrder(c, Exited, host, frames + [f])
  {
    assert (frames + [f])[..|frames|] == frames;
  }

  /** EXIT changes nothing about the lines. */
  lemma LinesOnExit(c: Config, host: HostPhase, pulled: nat, shown: seq<seq<byte>>, lines: seq<Response>)
    requires LinesInOrder(c, Framed, host, pulled, shown, lines)
    ensures LinesInOrder(c, Exited, host, pulled, shown, lines)
  {
  }

  lemma UpOnExit(c: Config, u: Up, toGuest: seq<Frame>, quiet: bool)
    requires UpInOrder(c, u, Framed, toGuest, quiet)
    ensures UpInOrder(c, u, Exited, toGuest, quiet)
  {
  }

  /** A frame of output is begun, or EXIT. */
  lemma OutputInv(c: Config, s: State, a: GuestAction)
    requires Sound(c) && Inv(c, s) && GuestEnabled(c, s, a)
    requires a.SendOut? || a.SendErr? || a.SendExit?
    ensures Inv(c, GuestStep(c, s, a))
  {
    hide DownWire, DataOf, LinesOf, EncodeAll, DecodeOne, LineEnd, Sum, InputAddsUp, FramesInOrder, LinesInOrder,
         UpInOrder, Encode;
    LinesOnExit(c, s.h.phase, s.g.pulled, s.h.shown, s.w.lines);
    UpOnExit(c, s.u, s.w.toGuest, Quiet(s));
    var s' := GuestStep(c, s, a);
    var f := s'.w.frames[|s.w.frames|];
    SumSnoc(s.h.out, FRAME_STDOUT, s.w.frames, f);
    SumSnoc(s.h.err, FRAME_STDERR, s.w.frames, f);
    if a.SendOut? {
      assert c.childOut[..s'.g.outAt] == c.childOut[..s.g.outAt] + f.data;
    } else if a.SendErr? {
      assert c.childErr[..s'.g.errAt] == c.childErr[..s.g.errAt] + f.data;
    }
    FrameSent(c, s.h.phase, s.w.frames, f);
    FrameBegun(c, s.d, s.w.lines, s.w.frames, f);
  }

  /** The reason as one frame, then EXIT: what is under way on each stream. */
  lemma SpawnErrorSums(c: Config, s: State)
    requires Sound(c) && c.spawnError.Some?
    ensures var fs := s.w.frames + [Frame(FRAME_STDERR, c.spawnError.value)] + [ExitFrame(c)];
            && Sum(s.h.out, FRAME_STDOUT, fs) == Sum(s.h.out, FRAME_STDOUT, s.w.frames)
            && Sum(s.h.err, FRAME_STDERR, fs) == Sum(s.h.err, FRAME_STDERR, s.w.frames) + c.spawnError.value
  {
    hide Sum, I32Be;
    var e, x := Frame(FRAME_STDERR, c.spawnError.value), ExitFrame(c);
    SumSnoc(s.h.out, FRAME_STDOUT, s.w.frames, e);
    SumSnoc(s.h.err, FRAME_STDERR, s.w.frames, e);
    SumSnoc(s.h.out, FRAME_STDOUT, s.w.frames + [e], x);
    SumSnoc(s.h.err, FRAME_STDERR, s.w.frames + [e], x);
  }

  lemma SpawnErrorUnderWay(c: Config, s: State)
    requires Sound(c) && Inv(c, s) && GuestEnabled(c, s, SendSpawnError)
    ensures var s' := GuestStep(c, s, SendSpawnError);
            && s'.w.frames == s.w.frames + [Frame(FRAME_STDERR, c.spawnError.value)] + [ExitFrame(c)]
            && s' == s.(d := s'.d, w := s.w.(frames := s'.w.frames), g := s.g.(phase := Exited))
            && !s.h.phase.Finished?
            && FramesInOrder(c, Exited, s.h.phase, s'.w.frames) && DownWire(c, s'.d, s.w.lines, s'.w.frames)
  {
    hide DownWire, LinesInOrder, FramesInOrder, OutputsAddUp, Inputs, Encode, I32Be;
    var e, x := Frame(FRAME_STDERR, c.spawnError.value), ExitFrame(c);
    FrameSent(c, s.h.phase, s.w.frames, e);
    FrameSent(c, s.h.phase, s.w.frames + [e], x);
    FrameBegun(c, s.d, s.w.lines, s.w.frames, e);
    FrameBegun(c, s.d.(writing := s.d.writing + Encode(e)), s.w.lines, s.w.frames + [e], x);
  }

  lemma SpawnErrorInv(c: Config, s: State)
    requires Sound(c) && Inv(c, s) && GuestEnabled(c, s, SendSpawnError)
    ensures Inv(c, GuestStep(c, s, SendSpawnError))
  {
    hide GuestStep, DownWire, LinesInOrder, FramesInOrder, Sum, UpInOrder, InputAddsUp, ExitFrame;
    SpawnErrorUnderWay(c, s);
    SpawnErrorSums(c, s);
    LinesOnExit(c, s.h.phase, s.g.pulled, s.h.shown, s.w.lines);
    UpOnExit(c, s.u, s.w.toGuest, Quiet(s));
  }

  lemma WriteInv(c: Config, s: State, a: GuestAction)
    requires Sound(c) && Inv(c, s) && GuestEnabled(c, s, a) && (a.WriteSome? || a.OutEof? || a.ErrEof?)
    ensures Inv(c, GuestStep(c, s, a))
  {
    hide DownWire, LinesInOrder, FramesInOrder, HostEnds, Sum, UpInOrder, InputAddsUp, ErrSent;
    if a.WriteSome? {
      var d := s.d;
      if !s.h.phase.Finished? {
        DownMoves(c, d, GuestStep(c, s, a).d, s.w.lines, s.w.frames) by {
          Moved(d.hostBuf + d.socket + d.vsock, d.writing, a.n);
          Regroup(d.hostBuf + d.socket, d.vsock, d.writing[..a.n]);
        }
      }
    }
  }

  lemma FirstInputFits(toGuest: seq<Frame>, childIn: seq<byte>, typed: seq<byte>, typedEof: bool)
    requires InputAddsUp(toGuest, childIn, Open, typed, typedEof) && toGuest != []
    ensures var f := toGuest[0];
            if f == EOF_FRAME then toGuest[1..] == [] && typedEof && childIn == typed
            else
              && IsInput(f)
              && InputAddsUp(toGuest[1..], if f.kind == FRAME_STDIN then childIn + f.data else childIn,
                             Open, typed, typedEof)
  {
    var f, n := toGuest[0], |toGuest| - 1;
    var rest := toGuest[1..];
    SumTake(childIn, FRAME_STDIN, toGuest);
    assert toGuest == [f] ==> Sum(childIn, FRAME_STDIN, toGuest) == childIn + f.data || f.kind != FRAME_STDIN;
    hide DataOf, Sum;
    assert f in toGuest;
    if typedEof && n > 0 {
      assert toGuest[..n][0] == f;
      assert f in toGuest[..n] && IsInput(f);
      assert rest[..n - 1] == toGuest[..n][1..];
    }
  }

  /** The frame that the guest's stdin thread takes is the oldest one the host has sent. */
  lemma OldestInput(u: Up, fs: seq<Frame>)
    requires u.vsock + u.socket == EncodeAll(fs) && DecodeOne(u.vsock).Some? && (fs != [] ==> Fits(fs[0]))
    ensures fs != [] && DecodeOne(u.vsock).value.0 == fs[0]
    ensures DecodeOne(u.vsock).value.1 + u.socket == EncodeAll(fs[1..])
  {
    assert fs == [] ==> |u.vsock + u.socket| == 0;
    FirstFrame(fs[0], EncodeAll(fs[1..]), u.vsock, u.socket);
  }

  lemma BrokenInput(fs: seq<Frame>, childIn: seq<byte>, typed: seq<byte>, typedEof: bool, k: nat)
    requires InputAddsUp(fs, childIn, Open, typed, typedEof) && fs != []
    requires fs[0].kind == FRAME_STDIN && k <= |fs[0].data|
    ensures childIn + fs[0].data[..k] <= typed
  {
    SumTake(childIn, FRAME_STDIN, fs);
    assert childIn + fs[0].data[..k] <= childIn + fs[0].data;
  }

  /** What the guest's stdin thread makes of that frame. */
  lemma FedInOrder(fs: seq<Frame>, g: Guest, typed: seq<byte>, typedEof: bool)
    requires InputAddsUp(fs, g.childIn, g.stdin, typed, typedEof) && g.stdin.Open? && fs != []
    ensures var g' := Feed(g, fs[0]);
            && InputAddsUp(fs[1..], g'.childIn, g'.stdin, typed, typedEof)
            && g' == g.(childIn := g'.childIn, stdin := g'.stdin)
  {
    FirstInputFits(fs, g.childIn, typed, typedEof);
  }

  lemma StdinFrameInv(c: Config, s: State, a: GuestAction)
    requires Sound(c) && Inv(c, s) && GuestEnabled(c, s, a) && (a.GuestFrame? || a.GuestFrameBroken?)
    ensures Inv(c, GuestStep(c, s, a))
  {
    var fs := s.w.toGuest;
    if fs != [] {
      FirstInputFits(fs, s.g.childIn, s.h.typed, s.h.typedEof);
    }
    OldestInput(s.u, fs);
    hide DownWire, LinesInOrder, FramesInOrder, DataOf, EncodeAll, LinesOf, DecodeOne, LineEnd, Sum, ReadSoFar,
         ErrSent, HostEnds, Phases, Feed;
    if a.GuestFrameBroken? {
      BrokenInput(fs, s.g.childIn, s.h.typed, s.h.typedEof, a.k);
    } else {
      FedInOrder(fs, s.g, s.h.typed, s.h.typedEof);
      hide InputAddsUp;
    }
  }

  lemma GuestInv(c: Config, s: State, a: GuestAction)
    requires Sound(c) && Inv(c, s) && GuestEnabled(c, s, a)
    ensures Inv(c, GuestStep(c, s, a))
  {
    hide Inv, GuestStep;
    match a
    case GuestLine => GuestLineInv(c, s);
    case SendProgress => ProgressInv(c, s);
    case SendPullError => ClosingInv(c, s, a);
    case SendReady => ClosingInv(c, s, a);
    case SendSpawnError => SpawnErrorInv(c, s);
    case SendOut(_) => OutputInv(c, s, a);
    case SendErr(_) => OutputInv(c, s, a);
    case SendExit => OutputInv(c, s, a);
    case OutEof => WriteInv(c, s, a);
    case ErrEof => WriteInv(c, s, a);
    case WriteSome(_) => WriteInv(c, s, a);
    case GuestFrame => StdinFrameInv(c, s, a);
    case GuestFrameBroken(_) => StdinFrameInv(c, s, a);
  }

  // ---- The host's steps ------------------------------------------------------------------

  /** The line that the host reads is the oldest one under way. */
  lemma OldestLine(c: Config, d: Down, lines: seq<Response>, frames: seq<Frame>)
    requires Sound(c) && DownWire(c, d, lines, frames) && NL in d.hostBuf && (lines == [] ==> frames == [])
    ensures lines != []
    ensures var i := LineEnd(d.hostBuf);
            && i > 0 && c.parse(d.hostBuf[..i]) == Some(lines[0])
            && DownWire(c, d.(hostBuf := d.hostBuf[i + 1..]), lines[1..], frames)
  {
    var rest := d.socket + d.vsock + d.writing;
    assert DownBytes(d) == d.hostBuf + rest;
    assert lines == [] ==> |DownBytes(d)| == 0;
    var r := lines[0];
    var more := LinesOf(c, lines[1..]) + EncodeAll(frames);
    assert LinesOf(c, lines) + EncodeAll(frames) == c.json(r) + [NL] + more;
    FirstLine(c.json(r), more, d.hostBuf, rest);
    var d' := d.(hostBuf := d.hostBuf[|c.json(r)| + 1..]);
    assert DownBytes(d') == d'.hostBuf + rest;
  }

  lemma LineHeard(c: Config, guest: GuestPhase, h: Host, pulled: nat, lines: seq<Response>, frames: seq<Frame>)
    requires LinesInOrder(c, guest, Waiting, pulled, h.shown, lines) && lines != [] && h.phase.Waiting?
    requires CodeFits(c) && FramesInOrder(c, guest, Waiting, frames)
    ensures var h' := Hear(h, Some(lines[0]));
            && LinesInOrder(c, guest, h'.phase, pulled, h'.shown, lines[1..])
            && FramesInOrder(c, guest, h'.phase, frames)
            && (h'.phase.Streaming? ==> guest.Framed? || guest.Exited?)
            && (h'.phase.Finished? ==> h'.phase == Finished(1, false) && guest.Failed?)
            && h' == h.(phase := h'.phase, shown := h'.shown)
  {
    var k := |h.shown|;
    if k < pulled {
      assert lines[0] == Progress(c.pulls[k]);
      assert lines[1..] == Told(c.pulls[k + 1..pulled]) + Closing(c, guest);
      assert c.pulls[..k + 1] == c.pulls[..k] + [c.pulls[k]];
    } else {
      assert lines == Closing(c, guest);
    }
  }

  lemma NoFramesYet(c: Config, s: State)
    requires CodeFits(c) && Queues(c, s) && s.h.phase.Waiting? && s.w.lines == []
    ensures s.w.frames == []
  {
  }

  lemma HostLineInv(c: Config, s: State)
    requires Sound(c) && Inv(c, s) && HostEnabled(c, s, HostLine)
    ensures Inv(c, HostStep(c, s, HostLine))
  {
    if s.w.lines == [] {
      NoFramesYet(c, s);
    }
    hide DownWire, LinesInOrder, FramesInOrder, DataOf, EncodeAll, LinesOf, DecodeOne, LineEnd, Sum, InputAddsUp,
         UpInOrder, ReadSoFar, ErrSent;
    OldestLine(c, s.d, s.w.lines, s.w.frames);
    LineHeard(c, s.g.phase, s.h, s.g.pulled, s.w.lines, s.w.frames);
    assert HostStep(c, s, HostLine).h == Hear(s.h, Some(s.w.lines[0]));
    hide Hear;
  }

  lemma ShowInOrder(c: Config, guest: GuestPhase, frames: seq<Frame>)
    requires CodeFits(c) && FramesInOrder(c, guest, Streaming, frames) && frames != []
    ensures Fits(frames[0])
    ensures if IsOutput(frames[0]) then FramesInOrder(c, guest, Streaming, frames[1..])
            else frames == [ExitFrame(c)] && guest.Exited?
  {
    var f, n := frames[0], |frames| - 1;
    assert f in frames;
    if guest.Exited? && n > 0 {
      assert frames[..n][0] == f;
      assert f in frames[..n] && IsOutput(f);
      assert frames[1..][..n - 1] == frames[..n][1..];
    }
  }

  /** The frame that the host shows is the oldest one under way. */
  lemma OldestFrame(c: Config, d: Down, frames: seq<Frame>)
    requires DownWire(c, d, [], frames) && DecodeOne(d.hostBuf).Some? && (frames != [] ==> Fits(frames[0]))
    ensures frames != [] && DecodeOne(d.hostBuf).value.0 == frames[0]
    ensures DownWire(c, d.(hostBuf := DecodeOne(d.hostBuf).value.1), [], frames[1..])
  {
    var rest := d.socket + d.vsock + d.writing;
    assert DownBytes(d) == d.hostBuf + rest;
    assert frames == [] ==> |DownBytes(d)| == 0;
    assert d.hostBuf + rest == Encode(frames[0]) + EncodeAll(frames[1..]);
    FirstFrame(frames[0], EncodeAll(frames[1..]), d.hostBuf, rest);
    var d' := d.(hostBuf := DecodeOne(d.hostBuf).value.1);
    assert DownBytes(d') == d'.hostBuf + rest;
  }

  lemma FrameShown(c: Config, guest: GuestPhase, h: Host, frames: seq<Frame>)
    requires CodeFits(c) && FramesInOrder(c, guest, Streaming, frames) && frames != [] && h.phase.Streaming?
    ensures var h' := Show(h, frames[0]);
            && FramesInOrder(c, guest, h'.phase, frames[1..])
            && (h'.phase.Streaming? || (h'.phase == Finished(WantCode(c), true) && guest.Exited?))
            && Sum(h'.out, FRAME_STDOUT, frames[1..]) == Sum(h.out, FRAME_STDOUT, frames)
            && Sum(h'.err, FRAME_STDERR, frames[1..]) == Sum(h.err, FRAME_STDERR, frames)
            && h' == h.(phase := h'.phase, out := h'.out, err := h'.err)
  {
    ShowInOrder(c, guest, frames);
    SumTake(h.out, FRAME_STDOUT, frames);
    SumTake(h.err, FRAME_STDERR, frames);
    I32RoundTrip(WantCode(c));
    assert h.out + [] == h.out && h.err + [] == h.err;
    hide Sum, DataOf;
  }

  lemma LinesOnShow(c: Config, guest: GuestPhase, pulled: nat, shown: seq<seq<byte>>, lines: seq<Response>)
    requires LinesInOrder(c, guest, Streaming, pulled, shown, lines)
    ensures lines == []
    ensures forall host: HostPhase :: !host.Waiting? ==> LinesInOrder(c, guest, host, pulled, shown, lines)
  {
  }

  lemma HostFrameInv(c: Config, s: State)
    requires Sound(c) && Inv(c, s) && HostEnabled(c, s, HostFrame)
    ensures Inv(c, HostStep(c, s, HostFrame))
  {
    assert s.w.frames != [] ==> Fits(s.w.frames[0]) by {
      if s.w.frames != [] {
        ShowInOrder(c, s.g.phase, s.w.frames);
      }
    }
    hide DownWire, LinesInOrder, FramesInOrder, DataOf, EncodeAll, LinesOf, DecodeOne, LineEnd, Sum, InputAddsUp,
         UpInOrder, ReadSoFar, ErrSent;
    LinesOnShow(c, s.g.phase, s.g.pulled, s.h.shown, s.w.lines);
    OldestFrame(c, s.d, s.w.frames);
    FrameShown(c, s.g.phase, s.h, s.w.frames);
    assert HostStep(c, s, HostFrame).h == Show(s.h, s.w.frames[0]);
    hide Show;
  }

  /** Frame by frame the host shows and returns what the receive loop makes of the whole stream. */
  lemma ShowIsReading(h: Host, s: seq<byte>, f: Frame, rest: seq<byte>)
    requires h.phase.Streaming? && DecodeOne(s) == Some((f, rest))
    ensures var h', v, w := Show(h, f), HostView(s), HostView(rest);
            if h'.phase.Streaming? then
              h'.out + w.out == h.out + v.out && h'.err + w.err == h.err + v.err && w.code == v.code
            else
              h'.out == h.out + v.out && h'.err == h.err + v.err && h'.phase.code == v.code
  {
    hide DecodeOne;
    if f.kind == FRAME_STDOUT || f.kind == FRAME_STDERR {
      OnePrinted(f, s, rest);
      ExecFrames.Joined(h.out, f.data, HostView(rest).out);
      ExecFrames.Joined(h.err, f.data, HostView(rest).err);
    }
  }

  lemma NothingUnderWay(c: Config, d: Down, lines: seq<Response>, frames: seq<Frame>)
    requires DownWire(c, d, lines, frames) && DownBytes(d) == []
    ensures lines == [] && frames == []
  {
    assert |LinesOf(c, lines)| + |EncodeAll(frames)| == 0;
  }

  lemma HostEofInv(c: Config, s: State)
    requires Sound(c) && Inv(c, s) && HostEnabled(c, s, HostEof)
    ensures Inv(c, HostStep(c, s, HostEof))
  {
    hide DownWire, DataOf, EncodeAll, LinesOf, DecodeOne, LineEnd, Sum, InputAddsUp, UpInOrder;
  }

  lemma InputTyped(fs: seq<Frame>, childIn: seq<byte>, stdin: StdinPhase, typed: seq<byte>, f: Frame)
    requires InputAddsUp(fs, childIn, stdin, typed, false) && (f == EOF_FRAME || IsInput(f))
    ensures InputAddsUp(fs + [f], childIn, stdin,
                        if f.kind == FRAME_STDIN then typed + f.data else typed, f == EOF_FRAME)
  {
    SumSnoc(childIn, FRAME_STDIN, fs, f);
    assert (fs + [f])[..|fs|] == fs;
  }

  lemma TypedInv(c: Config, s: State, a: HostAction)
    requires Sound(c) && Inv(c, s) && HostEnabled(c, s, a) && (a.Type? || a.TypeEof? || a.Resize?)
    ensures Inv(c, HostStep(c, s, a))
  {
    hide DownWire, LinesInOrder, FramesInOrder, DataOf, EncodeAll, LinesOf, DecodeOne, LineEnd, Sum;
    var fs := s.w.toGuest;
    var f := HostStep(c, s, a).w.toGuest[|fs|];
    EncodeAllSnoc(fs, f);
    Regroup(s.u.vsock, s.u.socket, Encode(f));
    InputTyped(fs, s.g.childIn, s.g.stdin, s.h.typed, f);
  }

  lemma HostInv(c: Config, s: State, a: HostAction)
    requires Sound(c) && Inv(c, s) && HostEnabled(c, s, a)
    ensures Inv(c, HostStep(c, s, a))
  {
    hide Inv, HostStep;
    match a
    case HostLine => HostLineInv(c, s);
    case HostFrame => HostFrameInv(c, s);
    case HostEof => HostEofInv(c, s);
    case Type(_) => TypedInv(c, s, a);
    case TypeEof => TypedInv(c, s, a);
    case Resize(_) => TypedInv(c, s, a);
  }

  // ---- What holds over every run ---------------------------------------------------------

  lemma StartInv(c: Config)
    requires Sound(c)
    ensures Inv(c, Start(c))
  {
    assert Told(c.pulls[0..0]) == [];
  }

  lemma {:induction false} RunInv(c: Config, ss: seq<State>, acts: seq<Action>, i: nat)
    requires Run(c, ss, acts) && i <= |acts|
    ensures Inv(c, ss[i])
  {
    if i == 0 {
      StartInv(c);
    } else {
      RunInv(c, ss, acts, i - 1);
      var s, a := ss[i - 1], acts[i - 1];
      match a
      case OfWire(w) => WireInv(c, s, w);
      case OfGuest(g) => GuestInv(c, s, g);
      case OfHost(h) => HostInv(c, s, h);
    }
  }

  /** At every moment the host has shown a prefix of each of the child's streams; once it has
      read EXIT it has shown both in full and returns the child's code. */
  lemma OutputIsFaithful(c: Config, ss: seq<State>, acts: seq<Action>, i: nat)
    requires Run(c, ss, acts) && i <= |acts|
    ensures ss[i].h.out <= WantOut(c) && ss[i].h.err <= WantErr(c)
    ensures ss[i].h.phase.Finished? && ss[i].h.phase.byExit ==>
              ss[i].h.out == WantOut(c) && ss[i].h.err == WantErr(c) && ss[i].h.phase.code == WantCode(c)
  {
    RunInv(c, ss, acts, i);
    var s := ss[i];
    assert s.h.out <= c.childOut[..s.g.outAt] <= c.childOut;
    assert s.h.err <= ErrSent(c, s.g.phase, s.g.errAt) <= WantErr(c);
  }

  /** The session ends without EXIT only when the image pull failed or the daemon refused a
      command longer than 64 KiB, and then it has shown nothing. */
  lemma EndsByExit(c: Config, ss: seq<State>, acts: seq<Action>, i: nat)
    requires Run(c, ss, acts) && i <= |acts| && ss[i].h.phase.Finished?
    ensures !ss[i].h.phase.byExit <==> c.pullError.Some? || |c.command| > FIRST_LINE_MAX
    ensures !ss[i].h.phase.byExit ==> ss[i].h.phase.code == 1 && ss[i].h.out == [] && ss[i].h.err == []
  {
    RunInv(c, ss, acts, i);
  }

  /** Nothing is lost at the switch from lines to frames, whatever the guest's reader has read
      ahead; the child's input is always a prefix of what the host has read, and when the child
      sees the end of its input it has had all of it. */
  lemma StdinIsFaithful(c: Config, ss: seq<State>, acts: seq<Action>, i: nat)
    requires Run(c, ss, acts) && i <= |acts|
    ensures ss[i].u.lost == []
    ensures ss[i].g.childIn <= ss[i].h.typed
    ensures ss[i].g.stdin.AtEof? ==> ss[i].h.typedEof && ss[i].g.childIn == ss[i].h.typed
  {
    RunInv(c, ss, acts, i);
  }
}
