/** One exec session between the host CLI, the daemon's proxy and the guest, as steps over FIFO
    byte channels.

    The session opens with JSON lines and switches to binary frames when the host reads Ready.
    The guest reads its command through a buffered reader of any read-ahead, drops that reader
    at the switch, and from then on reads the raw descriptor.  Its stdout and stderr threads
    share one writer under a mutex: a thread that has begun a frame finishes it, in writes of
    any size, before the other can begin.

    Channels hold a bounded number of bytes, and a writer waits while there is no room.  A write
    that has begun but does not fit stands at the end of its channel, which nobody else writes
    to meanwhile. */
module ExecSession {
  import opened Bytes
  import opened ExecFrames
  import opened Wrappers

  const NL: byte := 10
  const CHUNK: nat := 4096
  const FIRST_LINE_MAX: nat := 64 * 1024
  const EOF_FRAME: Frame := Frame(FRAME_STDIN, [])

  datatype Response = Ready | Progress(text: seq<byte>) | Error(text: seq<byte>)

  /** What is fixed before the session starts. */
  datatype Config = Config(
    json: Response -> seq<byte>,
    parse: seq<byte> -> Option<Response>,
    command: seq<byte>,               // the JSON text of the exec command
    pulls: seq<seq<byte>>,            // image pull progress
    pullError: Option<seq<byte>>,     // the pull fails with this message
    spawnError: Option<seq<byte>>,    // the child cannot be started, for this reason
    childOut: seq<byte>,
    childErr: seq<byte>,
    childCode: int,
    capacity: nat)                    // bytes that a channel takes before its writer has to wait

  /** JSON texts are non-empty, contain no newline, and are read back as they were written. */
  ghost predicate Sound(c: Config) {
    && (forall r :: c.json(r) != [] && NL !in c.json(r) && c.parse(c.json(r)) == Some(r))
    && c.command != [] && NL !in c.command
    && (c.spawnError.Some? ==> |c.spawnError.value| < TWO_32)
    && CodeFits(c) && c.capacity > 0
  }

  predicate CodeFits(c: Config) {
    -TWO_31 <= c.childCode < TWO_31
  }

  function WantOut(c: Config): seq<byte> {
    if c.spawnError.Some? then [] else c.childOut
  }

  function WantErr(c: Config): seq<byte> {
    if c.spawnError.Some? then c.spawnError.value else c.childErr
  }

  function WantCode(c: Config): int {
    if c.spawnError.Some? then 1 else c.childCode
  }

  datatype HostPhase = Waiting | Streaming | Finished(code: int, byExit: bool)
  datatype DaemonPhase = Peeking | Proxying | Dropped
  datatype StdinPhase = Open | AtEof | Broken
  datatype GuestPhase = Reading | Pulling | Framed | Exited | Failed

  datatype Host = Host(
    phase: HostPhase,
    typed: seq<byte>,                 // what the host has read from its stdin
    typedEof: bool,
    shown: seq<seq<byte>>,            // progress shown
    out: seq<byte>,
    err: seq<byte>)

  /** Host to guest: the CLI's socket, the daemon's peeked line, vsock, the buffered reader. */
  datatype Up = Up(
    socket: seq<byte>,
    peeked: seq<byte>,
    daemon: DaemonPhase,
    vsock: seq<byte>,
    readAhead: seq<byte>,
    lost: seq<byte>)                  // what the buffered reader held when it was dropped

  datatype Guest = Guest(
    phase: GuestPhase,
    pulled: nat,
    outAt: nat,
    errAt: nat,
    outEof: bool,
    errEof: bool,
    childIn: seq<byte>,
    stdin: StdinPhase)

  /** Guest to host: the rest of the message being written (the mutex is free when it is
      empty), vsock, the CLI's socket, the host's buffered reader. */
  datatype Down = Down(writing: seq<byte>, vsock: seq<byte>, socket: seq<byte>, hostBuf: seq<byte>)

  /** The messages under way, oldest first. */
  datatype Way = Way(lines: seq<Response>, frames: seq<Frame>, toGuest: seq<Frame>)

  datatype State = State(h: Host, u: Up, g: Guest, d: Down, w: Way)

  function Start(c: Config): State {
    State(Host(Waiting, [], false, [], [], []),
          Up(c.command + [NL], [], Peeking, [], [], []),
          Guest(Reading, 0, 0, 0, false, false, [], Open),
          Down([], [], [], []),
          Way([], [], []))
  }

  function LineEnd(s: seq<byte>): (i: nat)
    requires NL in s
    ensures i < |s| && s[i] == NL && NL !in s[..i]
  {
    if s[0] == NL then 0 else
      var i := LineEnd(s[1..]) + 1;
      assert s[..i] == [s[0]] + s[1..][..i - 1];
      i
  }

  function LineOf(c: Config, r: Response): seq<byte> {
    c.json(r) + [NL]
  }

  function LinesOf(c: Config, rs: seq<Response>): (s: seq<byte>)
    ensures |rs| <= |s|
  {
    if rs == [] then [] else LineOf(c, rs[0]) + LinesOf(c, rs[1..])
  }

  // ---- Steps -----------------------------------------------------------------------------

  /** Bytes move along the channels in pieces of any size. */
  datatype WireAction = DaemonPeek | ProxyUp(n: nat) | ProxyDown(n: nat) | HostFill(n: nat) | GuestFill(n: nat)

  datatype GuestAction =
    | GuestLine
    | SendProgress
    | SendPullError
    | SendReady
    | SendSpawnError
    | SendOut(n: nat)
    | SendErr(n: nat)
    | OutEof
    | ErrEof
    | SendExit
    | WriteSome(n: nat)
    | GuestFrame
    | GuestFrameBroken(k: nat)

  datatype HostAction = HostLine | HostFrame | HostEof | Type(chunk: seq<byte>) | TypeEof | Resize(size: seq<byte>)

  datatype Action = OfWire(wire: WireAction) | OfGuest(guest: GuestAction) | OfHost(host: HostAction)

  predicate WireEnabled(c: Config, s: State, a: WireAction) {
    match a
    case DaemonPeek => s.u.daemon.Peeking? && s.u.socket != []
    case ProxyUp(n) => s.u.daemon.Proxying? && 0 < n <= |s.u.socket| && |s.u.vsock| + n <= c.capacity
    case ProxyDown(n) => s.u.daemon.Proxying? && 0 < n <= |s.d.vsock| && |s.d.socket| + n <= c.capacity
    case HostFill(n) => !s.h.phase.Finished? && 0 < n <= |s.d.socket|
    case GuestFill(n) => s.g.phase.Reading? && 0 < n <= |s.u.vsock|
  }

  /** The guest's stdin thread has a whole frame to take. */
  predicate Listening(c: Config, s: State) {
    s.g.phase.Framed? && c.spawnError.None? && s.g.stdin.Open? && DecodeOne(s.u.vsock).Some?
  }

  /** The main thread may answer the command: the mutex is free. */
  predicate Answering(c: Config, s: State) {
    s.g.phase.Pulling? && s.d.writing == []
  }

  /** A frame may be begun: the mutex is free. */
  predicate Framing(c: Config, s: State) {
    s.g.phase.Framed? && s.d.writing == []
  }

  predicate GuestEnabled(c: Config, s: State, a: GuestAction) {
    match a
    case GuestLine => s.g.phase.Reading? && NL in s.u.readAhead
    case SendProgress => Answering(c, s) && s.g.pulled < |c.pulls|
    case SendPullError => Answering(c, s) && s.g.pulled == |c.pulls| && c.pullError.Some?
    case SendReady => Answering(c, s) && s.g.pulled == |c.pulls| && c.pullError.None?
    case SendSpawnError => Framing(c, s) && c.spawnError.Some?
    case SendOut(n) => Framing(c, s) && c.spawnError.None? && !s.g.outEof
                       && 0 < n <= CHUNK && s.g.outAt + n <= |c.childOut|
    case SendErr(n) => Framing(c, s) && c.spawnError.None? && !s.g.errEof
                       && 0 < n <= CHUNK && s.g.errAt + n <= |c.childErr|
    case OutEof => s.g.phase.Framed? && c.spawnError.None? && !s.g.outEof && s.g.outAt == |c.childOut|
    case ErrEof => s.g.phase.Framed? && c.spawnError.None? && !s.g.errEof && s.g.errAt == |c.childErr|
    case SendExit => Framing(c, s) && c.spawnError.None? && s.g.outEof && s.g.errEof
    case WriteSome(n) => 0 < n <= |s.d.writing| && |s.d.vsock| + n <= c.capacity
    case GuestFrame => Listening(c, s)
    case GuestFrameBroken(k) => Listening(c, s) && DecodeOne(s.u.vsock).value.0.kind == FRAME_STDIN
                                && k < |DecodeOne(s.u.vsock).value.0.data|
  }

  /** The user's input is being read, and the last of it has gone into the channel. */
  predicate ReadsInput(c: Config, s: State) {
    s.h.phase.Streaming? && !s.h.typedEof && |s.u.socket| < c.capacity
  }

  /** Only a refused connection is closed on the host: while the daemon proxies, its other direction
      keeps the socket open whatever the guest does. */
  predicate HostEnabled(c: Config, s: State, a: HostAction) {
    match a
    case HostLine => s.h.phase.Waiting? && NL in s.d.hostBuf
    case HostFrame => s.h.phase.Streaming? && DecodeOne(s.d.hostBuf).Some?
    case HostEof => !s.h.phase.Finished? && s.d.hostBuf == [] && s.d.socket == [] && s.u.daemon.Dropped?
    case Type(chunk) => ReadsInput(c, s) && 0 < |chunk| <= CHUNK
    case TypeEof => ReadsInput(c, s)
    case Resize(size) => ReadsInput(c, s) && |size| == 4
  }

  predicate Enabled(c: Config, s: State, a: Action) {
    match a
    case OfWire(w) => WireEnabled(c, s, w)
    case OfGuest(g) => GuestEnabled(c, s, g)
    case OfHost(h) => HostEnabled(c, s, h)
  }

  function BeginLine(c: Config, s: State, r: Response): State {
    s.(d := s.d.(writing := LineOf(c, r)), w := s.w.(lines := s.w.lines + [r]))
  }

  function BeginFrame(s: State, f: Frame): State {
    s.(d := s.d.(writing := s.d.writing + Encode(f)), w := s.w.(frames := s.w.frames + [f]))
  }

  function FromHost(s: State, f: Frame, h: Host): State {
    s.(h := h, u := s.u.(socket := s.u.socket + Encode(f)), w := s.w.(toGuest := s.w.toGuest + [f]))
  }

  /** The daemon reads the first line byte by byte, so that it takes nothing beyond it. */
  function Peek(u: Up): Up
    requires u.socket != []
  {
    var line := u.peeked + [u.socket[0]];
    var u' := u.(socket := u.socket[1..], peeked := line);
    if u.socket[0] == NL then u'.(daemon := Proxying, vsock := u.vsock + line)
    else if |line| > FIRST_LINE_MAX then u'.(daemon := Dropped)
    else u'
  }

  function Rest<T>(s: seq<T>): seq<T> {
    if s == [] then [] else s[1..]
  }

  /** What the guest's stdin thread does with a frame. */
  function Feed(g: Guest, f: Frame): Guest {
    if f.kind == FRAME_STDIN && f.data != [] then g.(childIn := g.childIn + f.data)
    else if f.kind == FRAME_RESIZE then g
    else g.(stdin := AtEof)
  }

  /** The child stops reading its input: part of the frame is written, and the thread ends. */
  function FeedBroken(g: Guest, f: Frame, k: nat): Guest
    requires k <= |f.data|
  {
    g.(childIn := g.childIn + f.data[..k], stdin := Broken)
  }

  /** The frame is read from the raw descriptor. */
  function TakeInput(s: State, g: Guest): State
    requires DecodeOne(s.u.vsock).Some?
  {
    s.(u := s.u.(vsock := DecodeOne(s.u.vsock).value.1), g := g, w := s.w.(toGuest := Rest(s.w.toGuest)))
  }

  function Hear(h: Host, r: Option<Response>): Host {
    match r
    case Some(Ready) => h.(phase := Streaming)
    case Some(Progress(t)) => h.(shown := h.shown + [t])
    case Some(Error(_)) => h.(phase := Finished(1, false))
    case None => h.(phase := Finished(1, false))
  }

  function Show(h: Host, f: Frame): Host {
    if f.kind == FRAME_STDOUT then h.(out := h.out + f.data)
    else if f.kind == FRAME_STDERR then h.(err := h.err + f.data)
    else if f.kind == FRAME_EXIT then
      h.(phase := Finished(if |f.data| == 4 then FromI32Be(f.data) else 0, true))
    else h.(phase := Finished(1, false))
  }

  function TakeLine(c: Config, s: State): State
    requires NL in s.d.hostBuf
  {
    var i := LineEnd(s.d.hostBuf);
    s.(h := if i == 0 then s.h else Hear(s.h, c.parse(s.d.hostBuf[..i])),
       d := s.d.(hostBuf := s.d.hostBuf[i + 1..]),
       w := s.w.(lines := Rest(s.w.lines)))
  }

  function TakeFrame(s: State): State
    requires DecodeOne(s.d.hostBuf).Some?
  {
    var d := DecodeOne(s.d.hostBuf).value;
    s.(h := Show(s.h, d.0), d := s.d.(hostBuf := d.1), w := s.w.(frames := Rest(s.w.frames)))
  }

  function WireStep(c: Config, s: State, a: WireAction): State
    requires WireEnabled(c, s, a)
  {
    var u, d := s.u, s.d;
    match a
    case DaemonPeek => s.(u := Peek(u))
    case ProxyUp(n) => s.(u := u.(socket := u.socket[n..], vsock := u.vsock + u.socket[..n]))
    case ProxyDown(n) => s.(d := d.(vsock := d.vsock[n..], socket := d.socket + d.vsock[..n]))
    case HostFill(n) => s.(d := d.(socket := d.socket[n..], hostBuf := d.hostBuf + d.socket[..n]))
    case GuestFill(n) => s.(u := u.(vsock := u.vsock[n..], readAhead := u.readAhead + u.vsock[..n]))
  }

  function GuestStep(c: Config, s: State, a: GuestAction): State
    requires GuestEnabled(c, s, a) && CodeFits(c)
  {
    var g, u, d := s.g, s.u, s.d;
    match a
    case GuestLine =>
      var i := LineEnd(u.readAhead);
      s.(u := u.(readAhead := u.readAhead[i + 1..]), g := g.(phase := if i == 0 then Reading else Pulling))
    case SendProgress => BeginLine(c, s, Progress(c.pulls[g.pulled])).(g := g.(pulled := g.pulled + 1))
    case SendPullError => BeginLine(c, s, Error(c.pullError.value)).(g := g.(phase := Failed))
    case SendReady =>
      BeginLine(c, s, Ready).(g := g.(phase := Framed), u := u.(lost := u.readAhead, readAhead := []))
    case SendSpawnError =>
      BeginFrame(BeginFrame(s, Frame(FRAME_STDERR, c.spawnError.value)), Frame(FRAME_EXIT, I32Be(1)))
        .(g := g.(phase := Exited))
    case SendOut(n) =>
      BeginFrame(s, Frame(FRAME_STDOUT, c.childOut[g.outAt..g.outAt + n])).(g := g.(outAt := g.outAt + n))
    case SendErr(n) =>
      BeginFrame(s, Frame(FRAME_STDERR, c.childErr[g.errAt..g.errAt + n])).(g := g.(errAt := g.errAt + n))
    case OutEof => s.(g := g.(outEof := true))
    case ErrEof => s.(g := g.(errEof := true))
    case SendExit => BeginFrame(s, Frame(FRAME_EXIT, I32Be(c.childCode))).(g := g.(phase := Exited))
    case WriteSome(n) => s.(d := d.(writing := d.writing[n..], vsock := d.vsock + d.writing[..n]))
    case GuestFrame => TakeInput(s, Feed(g, DecodeOne(u.vsock).value.0))
    case GuestFrameBroken(k) => TakeInput(s, FeedBroken(g, DecodeOne(u.vsock).value.0, k))
  }

  function HostStep(c: Config, s: State, a: HostAction): State
    requires HostEnabled(c, s, a)
  {
    var h := s.h;
    match a
    case HostLine => TakeLine(c, s)
    case HostFrame => TakeFrame(s)
    case HostEof => s.(h := h.(phase := Finished(1, false)))
    case Type(chunk) => FromHost(s, Frame(FRAME_STDIN, chunk), h.(typed := h.typed + chunk))
    case TypeEof => FromHost(s, EOF_FRAME, h.(typedEof := true))
    case Resize(size) => FromHost(s, Frame(FRAME_RESIZE, size), h)
  }

  function Step(c: Config, s: State, a: Action): State
    requires Enabled(c, s, a) && CodeFits(c)
  {
    match a
    case OfWire(w) => WireStep(c, s, w)
    case OfGuest(g) => GuestStep(c, s, g)
    case OfHost(h) => HostStep(c, s, h)
  }

  /** Any interleaving of the steps. */
  ghost predicate Run(c: Config, ss: seq<State>, acts: seq<Action>) {
    && Sound(c)
    && |ss| == |acts| + 1 && ss[0] == Start(c)
    && forall i :: 0 <= i < |acts| ==> Enabled(c, ss[i], acts[i]) && ss[i + 1] == Step(c, ss[i], acts[i])
  }
}
