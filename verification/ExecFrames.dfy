/** The binary frames of an exec session: a type byte, a 32-bit big-endian length, the data. */
module ExecFrames {
  import opened Bytes
  import opened Streams
  import opened Wrappers

  const FRAME_STDIN: byte := 0
  const FRAME_STDOUT: byte := 1
  const FRAME_STDERR: byte := 2
  const FRAME_EXIT: byte := 3
  const FRAME_RESIZE: byte := 4

  datatype Frame = Frame(kind: byte, data: seq<byte>)

  /** The length is cast to 32 bits. */
  function Encode(f: Frame): seq<byte> {
    [f.kind] + U32Be(|f.data| % TWO_32) + f.data
  }

  function EncodeAll(fs: seq<Frame>): (s: seq<byte>)
    ensures 5 * |fs| <= |s|
  {
    if fs == [] then [] else Encode(fs[0]) + EncodeAll(fs[1..])
  }

  /** The first whole frame of `s`, and what follows it. */
  function DecodeOne(s: seq<byte>): (r: Option<(Frame, seq<byte>)>)
    ensures r.Some? ==> |r.value.1| < |s|
  {
    if |s| < 5 then None
    else
      var n := FromU32Be(s[1..5]);
      if |s| < 5 + n then None
      else Some((Frame(s[0], s[5..5 + n]), s[5 + n..]))
  }

  predicate Fits(f: Frame) {
    |f.data| < TWO_32
  }

  /** A frame is read back as it was sent, leaving the rest of the stream untouched, exactly
      when its length fits the 32 bits of the header. */
  lemma DecodeEncode(f: Frame, rest: seq<byte>)
    ensures DecodeOne(Encode(f) + rest) == Some((f, rest)) <==> Fits(f)
  {
    var n := |f.data| % TWO_32;
    var s := Encode(f) + rest;
    U32RoundTrip(n);
    assert s[1..5] == U32Be(n);
    if Fits(f) {
      assert s[5..5 + n] == f.data;
      assert s[5 + n..] == rest;
    } else {
      assert |s[5..5 + n]| < |f.data|;
    }
  }

  lemma {:induction false} EncodeAllSnoc(fs: seq<Frame>, f: Frame)
    ensures EncodeAll(fs + [f]) == EncodeAll(fs) + Encode(f)
  {
    if fs == [] {
      assert EncodeAll([f]) == Encode(f) + EncodeAll([]);
    } else {
      assert (fs + [f])[1..] == fs[1..] + [f];
      EncodeAllSnoc(fs[1..], f);
    }
  }

  method SendFrame(w: ByteSink, f: Frame) returns (ok: bool)
    modifies w
    ensures ok ==> w.written == old(w.written) + Encode(f)
    ensures w.errors == old(w.errors) + if ok then 0 else 1
    ensures old(w.written) <= w.written <= old(w.written) + Encode(f)
  {
    assert Encode(f) == [f.kind] + (U32Be(|f.data| % TWO_32) + f.data);
    ok := WriteAll(w, [f.kind]);
    if ok {
      ok := WriteAll(w, U32Be(|f.data| % TWO_32));
      if ok {
        ok := WriteAll(w, f.data);
      }
    }
  }

  /** Reads exactly one frame: nothing that follows it is taken from the descriptor. */
  method RecvFrame(r: ByteSource) returns (io: Io, f: Frame)
    modifies r
    ensures io.Done? ==> DecodeOne(old(r.pending)) == Some((f, r.pending))
    ensures io.Eof? ==> DecodeOne(old(r.pending)) == None
    ensures r.errors == old(r.errors) + if io.Failed? then 1 else 0
    ensures |r.pending| <= |old(r.pending)|
  {
    ghost var s := r.pending;
    f := Frame(0, []);
    var typeBuf := new byte[1];
    io := ReadExact(r, typeBuf, 1);
    if !io.Done? {
      return;
    }
    var lenBuf := new byte[4];
    io := ReadExact(r, lenBuf, 4);
    if !io.Done? {
      return;
    }
    assert lenBuf[..] == lenBuf[..4] == s[1..][..4] == s[1..5];
    assert r.pending == s[1..][4..] == s[5..];
    var len := FromU32Be(lenBuf[..]);
    var data := new byte[len];
    io := ReadExact(r, data, len);
    if io.Done? {
      f := Frame(typeBuf[0], data[..]);
      assert typeBuf[0] == typeBuf[..1][0] == s[..1][0];
      assert data[..] == data[..len] == s[5..][..len] == s[5..5 + len];
      assert r.pending == s[5..][len..] == s[5 + len..];
    }
  }

  /** What the host prints, and the code it returns, for the bytes it gets from the guest. */
  datatype View = View(out: seq<byte>, err: seq<byte>, code: int)

  function HostView(s: seq<byte>): View
    decreases |s|
  {
    match DecodeOne(s)
    case None => View([], [], 1)
    case Some((f, rest)) =>
      if f.kind == FRAME_STDOUT then
        var v := HostView(rest);
        v.(out := f.data + v.out)
      else if f.kind == FRAME_STDERR then
        var v := HostView(rest);
        v.(err := f.data + v.err)
      else if f.kind == FRAME_EXIT then
        View([], [], if |f.data| == 4 then FromI32Be(f.data) else 0)
      else View([], [], 1)
  }

  /** The data of the frames of one kind, in order. */
  function DataOf(kind: byte, fs: seq<Frame>): seq<byte> {
    if fs == [] then []
    else (if fs[0].kind == kind then fs[0].data else []) + DataOf(kind, fs[1..])
  }

  predicate IsOutput(f: Frame) {
    Fits(f) && (f.kind == FRAME_STDOUT || f.kind == FRAME_STDERR)
  }

  lemma OnePrinted(f: Frame, s: seq<byte>, rest: seq<byte>)
    requires DecodeOne(s) == Some((f, rest)) && (f.kind == FRAME_STDOUT || f.kind == FRAME_STDERR)
    ensures HostView(s) == if f.kind == FRAME_STDOUT then HostView(rest).(out := f.data + HostView(rest).out)
                           else HostView(rest).(err := f.data + HostView(rest).err)
  {
    hide DecodeOne;
  }

  lemma Joined(a: seq<byte>, b: seq<byte>, c: seq<byte>)
    ensures a + (b + c) == a + b + c && [] + b + c == b + c
  {
  }

  /** Output frames are printed, each stream by itself and in order; what follows decides the rest. */
  lemma {:induction false} OutputIsPrinted(fs: seq<Frame>, s: seq<byte>)
    requires forall f <- fs :: IsOutput(f)
    ensures HostView(EncodeAll(fs) + s)
         == View(DataOf(FRAME_STDOUT, fs) + HostView(s).out, DataOf(FRAME_STDERR, fs) + HostView(s).err,
                 HostView(s).code)
  {
    hide DecodeOne, Encode;
    if fs == [] {
      assert EncodeAll(fs) + s == s;
    } else {
      var f, t := fs[0], EncodeAll(fs[1..]) + s;
      OutputIsPrinted(fs[1..], s);
      assert EncodeAll(fs) + s == Encode(f) + t;
      DecodeEncode(f, t);
      assert f in fs && IsOutput(f);
      OnePrinted(f, Encode(f) + t, t);
      hide HostView, EncodeAll;
      Joined(f.data, DataOf(FRAME_STDOUT, fs[1..]), HostView(s).out);
      Joined(f.data, DataOf(FRAME_STDERR, fs[1..]), HostView(s).err);
    }
  }

  /** The bytes of an EXIT frame are the code; without four of them it is 0. */
  lemma ExitIsRead(data: seq<byte>, rest: seq<byte>)
    requires |data| < TWO_32
    ensures var v := HostView(Encode(Frame(FRAME_EXIT, data)) + rest);
            && v.out == [] && v.err == []
            && (forall code :: -TWO_31 <= code < TWO_31 && data == I32Be(code) ==> v.code == code)
            && (|data| != 4 ==> v.code == 0)
  {
    hide Encode, DecodeOne, FromI32Be, I32Be;
    DecodeEncode(Frame(FRAME_EXIT, data), rest);
    forall code | -TWO_31 <= code < TWO_31 && data == I32Be(code)
      ensures FromI32Be(data) == code
    {
      I32RoundTrip(code);
    }
  }

  /** What the guest sends is what the host shows and returns: each stream in full, and the code. */
  lemma SessionIsRead(fs: seq<Frame>, code: int, rest: seq<byte>)
    requires (forall f <- fs :: IsOutput(f)) && -TWO_31 <= code < TWO_31
    ensures HostView(EncodeAll(fs + [Frame(FRAME_EXIT, I32Be(code))]) + rest)
         == View(DataOf(FRAME_STDOUT, fs), DataOf(FRAME_STDERR, fs), code)
  {
    hide HostView, Encode, I32Be;
    var exit := Frame(FRAME_EXIT, I32Be(code));
    EncodeAllSnoc(fs, exit);
    assert EncodeAll(fs) + Encode(exit) + rest == EncodeAll(fs) + (Encode(exit) + rest);
    OutputIsPrinted(fs, Encode(exit) + rest);
    ExitIsRead(exit.data, rest);
    hide DataOf;
    assert DataOf(FRAME_STDOUT, fs) + [] == DataOf(FRAME_STDOUT, fs);
    assert DataOf(FRAME_STDERR, fs) + [] == DataOf(FRAME_STDERR, fs);
  }

  /** Neither output nor EXIT follows: the stream has ended, perhaps in the middle of a frame, or
      there is a frame of another kind. */
  predicate EndsBadly(s: seq<byte>) {
    DecodeOne(s).None? || DecodeOne(s).value.0.kind !in {FRAME_STDOUT, FRAME_STDERR, FRAME_EXIT}
  }

  /** Without EXIT what came is shown, and the code is 1. */
  lemma WithoutExit(fs: seq<Frame>, s: seq<byte>)
    requires (forall f <- fs :: IsOutput(f)) && EndsBadly(s)
    ensures HostView(EncodeAll(fs) + s) == View(DataOf(FRAME_STDOUT, fs), DataOf(FRAME_STDERR, fs), 1)
  {
    OutputIsPrinted(fs, s);
    hide DecodeOne, EncodeAll, DataOf;
    assert DataOf(FRAME_STDOUT, fs) + [] == DataOf(FRAME_STDOUT, fs);
    assert DataOf(FRAME_STDERR, fs) + [] == DataOf(FRAME_STDERR, fs);
  }

  lemma EncodedAgain(s: seq<byte>)
    requires DecodeOne(s).Some?
    ensures Fits(DecodeOne(s).value.0) && s == Encode(DecodeOne(s).value.0) + DecodeOne(s).value.1
  {
    var n := FromU32Be(s[1..5]);
    U32Again(s[1..5]);
    hide U32Be, FromU32Be;
    Parts(s, 5 + n);
  }

  lemma Parts(s: seq<byte>, n: nat)
    requires 5 <= n <= |s|
    ensures s == [s[0]] + s[1..5] + s[5..n] + s[n..]
  {
  }

  /** There are no other streams: every one is output frames followed by EXIT, or by a bad end. */
  lemma {:induction false} EveryStream(s: seq<byte>) returns (fs: seq<Frame>, rest: seq<byte>)
    ensures s == EncodeAll(fs) + rest && forall f <- fs :: IsOutput(f)
    ensures EndsBadly(rest) || DecodeOne(rest).value.0.kind == FRAME_EXIT
    decreases |s|
  {
    hide DecodeOne, Encode;
    if DecodeOne(s).Some? && DecodeOne(s).value.0.kind in {FRAME_STDOUT, FRAME_STDERR} {
      var f := DecodeOne(s).value.0;
      EncodedAgain(s);
      var more;
      more, rest := EveryStream(DecodeOne(s).value.1);
      fs := [f] + more;
      assert fs[1..] == more;
      assert s == Encode(f) + (EncodeAll(more) + rest);
    } else {
      fs, rest := [], s;
    }
  }

  /** The view of someone who has already printed `v`. */
  function Resume(v: View, s: seq<byte>): View {
    var w := HostView(s);
    View(v.out + w.out, v.err + w.err, w.code)
  }

  lemma ResumeAfterOutput(v: View, s: seq<byte>, f: Frame, rest: seq<byte>)
    requires DecodeOne(s) == Some((f, rest)) && (f.kind == FRAME_STDOUT || f.kind == FRAME_STDERR)
    ensures Resume(v, s)
         == Resume(if f.kind == FRAME_STDOUT then v.(out := v.out + f.data) else v.(err := v.err + f.data), rest)
  {
    var w := HostView(rest);
    assert (v.out + f.data) + w.out == v.out + (f.data + w.out);
    assert (v.err + f.data) + w.err == v.err + (f.data + w.err);
  }

  /** The host's receive loop. */
  method ReadGuestFrames(r: ByteSource) returns (v: View, failed: bool)
    modifies r
    ensures r.errors == old(r.errors) + if failed then 1 else 0
    ensures !failed ==> v == HostView(old(r.pending))
    ensures failed ==> v.code == 1 && v.out <= HostView(old(r.pending)).out && v.err <= HostView(old(r.pending)).err
  {
    ghost var all := HostView(r.pending);
    v, failed := View([], [], 1), false;
    while true
      invariant !failed && r.errors == old(r.errors)
      invariant Resume(v, r.pending) == all
      decreases |r.pending|
    {
      ghost var s := r.pending;
      var io, f := RecvFrame(r);
      if !io.Done? {
        v, failed := v.(code := 1), io.Failed?;
        return;
      }
      if f.kind == FRAME_STDOUT || f.kind == FRAME_STDERR {
        ResumeAfterOutput(v, s, f, r.pending);
      }
      if f.kind == FRAME_STDOUT {
        v := v.(out := v.out + f.data);
      } else if f.kind == FRAME_STDERR {
        v := v.(err := v.err + f.data);
      } else if f.kind == FRAME_EXIT {
        v := v.(code := if |f.data| == 4 then FromI32Be(f.data) else 0);
        return;
      } else {
        v := v.(code := 1);
        return;
      }
    }
  }
}
