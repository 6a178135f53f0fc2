/** The relay between a socket_vmnet byte stream and the datagrams of the VM's network device.

    On the stream each Ethernet frame follows its length, four bytes big-endian. */
module VmnetRelay {
  import opened Bytes
  import opened Streams

  /** Size of the frame buffers: the largest frame that either direction carries. */
  const FRAME_MAX: int := 64 * 1024

  class DatagramSink {
    var sent: seq<seq<byte>>
    ghost var errors: nat

    constructor ()
      ensures sent == [] && errors == 0
    {
      sent, errors := [], 0;
    }

    method Send(frame: seq<byte>) returns (ok: bool)
      modifies this
      ensures sent == old(sent) + if ok then [frame] else []
      ensures errors == old(errors) + if ok then 0 else 1
    {
      if * {
        errors := errors + 1;
        return false;
      }
      sent := sent + [frame];
      return true;
    }
  }

  class DatagramSource {
    var queue: seq<seq<byte>>
    ghost var errors: nat

    constructor (frames: seq<seq<byte>>)
      ensures queue == frames && errors == 0
    {
      queue, errors := frames, 0;
    }

    /** recv(2): one datagram per call, cut to the buffer; the empty result is also what a
        closed socket gives. */
    method Recv() returns (failed: bool, frame: seq<byte>)
      modifies this
      ensures failed ==> queue == old(queue)
      ensures errors == old(errors) + if failed then 1 else 0
      ensures !failed && old(queue) == [] ==> frame == [] && queue == []
      ensures !failed && old(queue) != [] ==> frame == Cut(old(queue)[0]) && queue == old(queue)[1..]
    {
      frame := [];
      if * {
        errors := errors + 1;
        return true, frame;
      }
      if queue == [] {
        return false, frame;
      }
      frame, queue := Cut(queue[0]), queue[1..];
      failed := false;
    }
  }

  function Cut(frame: seq<byte>): seq<byte> {
    if |frame| <= FRAME_MAX then frame else frame[..FRAME_MAX]
  }

  predicate Carried(frame: seq<byte>) {
    0 < |frame| <= FRAME_MAX
  }

  /** The length is cast to 32 bits. */
  function EncodeOne(frame: seq<byte>): seq<byte> {
    U32Be(|frame| % TWO_32) + frame
  }

  function Encode(frames: seq<seq<byte>>): seq<byte> {
    if frames == [] then [] else EncodeOne(frames[0]) + Encode(frames[1..])
  }

  /** The frames of a stream, up to its end or the first bad length. */
  function Decode(s: seq<byte>): seq<seq<byte>> {
    if |s| < 4 then []
    else
      var n := FromU32Be(s[..4]);
      if n == 0 || n > FRAME_MAX || |s| < 4 + n then []
      else [s[4..4 + n]] + Decode(s[4 + n..])
  }

  /** What is sent on from a queue of datagrams: an empty one ends the relay. */
  function Forwarded(queue: seq<seq<byte>>): (fs: seq<seq<byte>>)
    ensures forall f <- fs :: Carried(f)
  {
    if queue == [] || queue[0] == [] then [] else [Cut(queue[0])] + Forwarded(queue[1..])
  }

  lemma DecodeHead(frame: seq<byte>, rest: seq<byte>)
    requires Carried(frame)
    ensures Decode(EncodeOne(frame) + rest) == [frame] + Decode(rest)
  {
    var n, s := |frame|, EncodeOne(frame) + rest;
    assert n % TWO_32 == n;
    U32RoundTrip(n);
    HeadOf(U32Be(n), frame, rest);
  }

  lemma HeadOf(len: seq<byte>, frame: seq<byte>, rest: seq<byte>)
    requires |len| == 4 && FromU32Be(len) == |frame| && Carried(frame)
    ensures Decode(len + frame + rest) == [frame] + Decode(rest)
  {
    var s := len + frame + rest;
    assert s[..4] == len;
    assert s[4..4 + |frame|] == frame;
    assert s[4 + |frame|..] == rest;
  }

  lemma EncodeNone(rest: seq<byte>)
    ensures Encode([]) + rest == rest
  {
  }

  lemma FirstAndRest(frames: seq<seq<byte>>, more: seq<seq<byte>>)
    requires frames != []
    ensures frames + more == [frames[0]] + (frames[1..] + more)
  {
  }

  lemma EncodeFirst(frames: seq<seq<byte>>, rest: seq<byte>)
    requires frames != []
    ensures Encode(frames) + rest == EncodeOne(frames[0]) + (Encode(frames[1..]) + rest)
  {
    hide EncodeOne;
  }

  lemma {:induction false} DecodeEncode(frames: seq<seq<byte>>, rest: seq<byte>)
    requires forall f <- frames :: Carried(f)
    ensures Decode(Encode(frames) + rest) == frames + Decode(rest)
  {
    hide Encode, EncodeOne, Decode;
    if frames == [] {
      EncodeNone(rest);
      assert frames + Decode(rest) == Decode(rest);
    } else {
      EncodeFirst(frames, rest);
      DecodeEncode(frames[1..], rest);
      DecodeHead(frames[0], Encode(frames[1..]) + rest);
      FirstAndRest(frames, Decode(rest));
    }
  }

  /** Whatever part of the stream has come through, its frames are the first of those sent. */
  lemma {:induction false} DecodeOfPrefix(frames: seq<seq<byte>>, w: seq<byte>)
    requires forall f <- frames :: Carried(f)
    requires w <= Encode(frames)
    ensures Decode(w) <= frames
  {
    if frames != [] {
      var head := EncodeOne(frames[0]);
      assert Carried(frames[0]);
      assert |frames[0]| % TWO_32 == |frames[0]|;
      if |w| < |head| {
        assert w == head[..|w|];
        if |w| >= 4 {
          U32RoundTrip(|frames[0]|);
          assert w[..4] == U32Be(|frames[0]|);
        }
      } else {
        var w' := w[|head|..];
        assert Encode(frames)[|head|..] == Encode(frames[1..]);
        assert w == head + w';
        DecodeHead(frames[0], w');
        DecodeOfPrefix(frames[1..], w');
      }
    }
  }

  lemma {:induction false} ForwardedIsAll(queue: seq<seq<byte>>)
    ensures Forwarded(queue) == queue <==> forall f <- queue :: Carried(f)
  {
    if queue != [] {
      ForwardedIsAll(queue[1..]);
      assert queue == [queue[0]] + queue[1..];
      if queue[0] == [] {
        assert !Carried(queue[0]);
      } else {
        assert Forwarded(queue) == [Cut(queue[0])] + Forwarded(queue[1..]);
        assert Forwarded(queue) == queue ==> Forwarded(queue)[1..] == queue[1..];
        assert (forall f <- queue :: Carried(f))
           <==> Carried(queue[0]) && forall f <- queue[1..] :: Carried(f);
      }
    }
  }

  /** One direction's stream, decoded by the other, gives back the frames in order exactly when
      every frame has between 1 and 65536 bytes. */
  lemma RelayIsTransparent(queue: seq<seq<byte>>)
    ensures Decode(Encode(Forwarded(queue))) == queue <==> forall f <- queue :: Carried(f)
  {
    DecodeEncode(Forwarded(queue), []);
    assert Encode(Forwarded(queue)) + [] == Encode(Forwarded(queue));
    ForwardedIsAll(queue);
  }

  lemma SplitAgain(s: seq<byte>, k: nat, n: nat)
    requires k <= |s|
    ensures |s| >= k + n ==> s[k..][..n] == s[k..k + n] && s[k..][n..] == s[k + n..]
  {
  }

  datatype End = Closed | BadLength | IoError

  /** A stream is given up where its next length is zero or too large. */
  predicate Spoilt(s: seq<byte>)
    decreases |s|
  {
    |s| >= 4
    && var n := FromU32Be(s[..4]);
       n == 0 || n > FRAME_MAX || (|s| >= 4 + n && Spoilt(s[4 + n..]))
  }

  lemma DecodeNext(s: seq<byte>, n: nat)
    requires |s| >= 4 && n == FromU32Be(s[..4])
    ensures n == 0 || n > FRAME_MAX || |s| < 4 + n ==> Decode(s) == []
    ensures 0 < n <= FRAME_MAX && |s| >= 4 + n ==> Decode(s) == [s[4..4 + n]] + Decode(s[4 + n..])
  {
    hide FromU32Be;
  }

  /** What one turn of the reading loop finds: no whole frame, or the next one. */
  lemma DecodeTurn(s: seq<byte>)
    ensures |s| < 4 ==> Decode(s) == []
    ensures |s| >= 4 ==>
              var n := FromU32Be(s[..4]);
              if n == 0 || n > FRAME_MAX || |s[4..]| < n then Decode(s) == []
              else Decode(s) == [s[4..][..n]] + Decode(s[4..][n..])
  {
    if |s| >= 4 {
      hide Decode, FromU32Be;
      DecodeNext(s, FromU32Be(s[..4]));
      SplitAgain(s, 4, FromU32Be(s[..4]));
    }
  }

  lemma SpoiltNext(s: seq<byte>, n: nat)
    requires |s| >= 4 && n == FromU32Be(s[..4])
    ensures Spoilt(s) <==> n == 0 || n > FRAME_MAX || (|s| >= 4 + n && Spoilt(s[4 + n..]))
  {
    hide FromU32Be;
  }

  lemma SpoiltTurn(s: seq<byte>)
    ensures |s| < 4 ==> !Spoilt(s)
    ensures |s| >= 4 ==>
              var n := FromU32Be(s[..4]);
              Spoilt(s) <==> n == 0 || n > FRAME_MAX || (|s[4..]| >= n && Spoilt(s[4..][n..]))
  {
    if |s| >= 4 {
      hide Spoilt, FromU32Be;
      SpoiltNext(s, FromU32Be(s[..4]));
      SplitAgain(s, 4, FromU32Be(s[..4]));
    }
  }

  /** What the other direction writes never spoils a stream. */
  lemma {:induction false} FramesNeverSpoil(frames: seq<seq<byte>>, rest: seq<byte>)
    requires forall f <- frames :: Carried(f)
    ensures Spoilt(Encode(frames) + rest) <==> Spoilt(rest)
  {
    hide Encode, Spoilt, EncodeOne;
    if frames == [] {
      EncodeNone(rest);
    } else {
      FramesNeverSpoil(frames[1..], rest);
      EncodeFirst(frames, rest);
      FrameFirst(frames[0], Encode(frames[1..]) + rest);
      SpoiltTurn(EncodeOne(frames[0]) + (Encode(frames[1..]) + rest));
    }
  }

  lemma FrameFirst(frame: seq<byte>, rest: seq<byte>)
    requires Carried(frame)
    ensures var s := EncodeOne(frame) + rest;
            |s| >= 4 && FromU32Be(s[..4]) == |frame| && |s[4..]| >= |frame| && s[4..][|frame|..] == rest
  {
    var s := EncodeOne(frame) + rest;
    assert |frame| % TWO_32 == |frame|;
    U32RoundTrip(|frame|);
    assert s[..4] == U32Be(|frame|);
  }

  /** socket_vmnet to VM. */
  method RelayVmnetToAvf(vmnet: ByteSource, avf: DatagramSink) returns (end: End)
    modifies vmnet, avf
    ensures old(avf.sent) <= avf.sent <= old(avf.sent) + Decode(old(vmnet.pending))
    ensures vmnet.errors + avf.errors == old(vmnet.errors + avf.errors) + if end.IoError? then 1 else 0
    ensures !end.IoError? ==>
              && avf.sent == old(avf.sent) + Decode(old(vmnet.pending))
              && (end.BadLength? <==> Spoilt(old(vmnet.pending)))
  {
    hide Decode, Spoilt, FromU32Be;
    var lenBuf := new byte[4];
    var frameBuf := new byte[FRAME_MAX];
    while true
      invariant fresh(lenBuf) && fresh(frameBuf)
      invariant old(avf.sent) <= avf.sent
      invariant avf.sent + Decode(vmnet.pending) == old(avf.sent) + Decode(old(vmnet.pending))
      invariant Spoilt(vmnet.pending) <==> Spoilt(old(vmnet.pending))
      invariant vmnet.errors == old(vmnet.errors) && avf.errors == old(avf.errors)
      decreases |vmnet.pending|
    {
      DecodeTurn(vmnet.pending);
      SpoiltTurn(vmnet.pending);
      var io := ReadExact(vmnet, lenBuf, 4);
      if !io.Done? {
        return if io.Eof? then Closed else IoError;
      }
      var frameLen := FromU32Be(lenBuf[..]);
      assert lenBuf[..] == lenBuf[..4];
      if frameLen == 0 || frameLen > FRAME_MAX {
        return BadLength;
      }
      io := ReadExact(vmnet, frameBuf, frameLen);
      if !io.Done? {
        return if io.Eof? then Closed else IoError;
      }
      var ok := avf.Send(frameBuf[..frameLen]);
      if !ok {
        return IoError;
      }
    }
  }

  /** What one turn of the writing loop sends. */
  lemma ForwardedNext(queue: seq<seq<byte>>)
    ensures queue == [] || queue[0] == [] ==> Encode(Forwarded(queue)) == []
    ensures queue != [] && queue[0] != [] ==>
              && Cut(queue[0]) != []
              && Encode(Forwarded(queue)) == EncodeOne(Cut(queue[0])) + Encode(Forwarded(queue[1..]))
    ensures queue != [] && queue[0] == [] ==> Cut(queue[0]) == []
  {
    hide EncodeOne;
    if queue != [] && queue[0] != [] {
      assert Forwarded(queue)[1..] == Forwarded(queue[1..]);
    }
  }

  /** The length, then the frame. */
  method WriteFrame(vmnet: ByteSink, frame: seq<byte>) returns (ok: bool)
    modifies vmnet
    ensures vmnet.errors == old(vmnet.errors) + if ok then 0 else 1
    ensures ok ==> vmnet.written == old(vmnet.written) + EncodeOne(frame)
    ensures old(vmnet.written) <= vmnet.written <= old(vmnet.written) + EncodeOne(frame)
  {
    hide U32Be;
    ghost var w, len := vmnet.written, U32Be(|frame| % TWO_32);
    assert w + (len + frame) == w + len + frame;
    ok := WriteAll(vmnet, U32Be(|frame| % TWO_32));
    if ok {
      ok := WriteAll(vmnet, frame);
    }
  }

  lemma PartOfMore(w: seq<byte>, x: seq<byte>, part: seq<byte>, more: seq<byte>)
    requires w <= x <= w + part
    ensures w <= x <= w + (part + more) && w + part + more == w + (part + more)
  {
  }

  /** VM to socket_vmnet. */
  method RelayAvfToVmnet(avf: DatagramSource, vmnet: ByteSink) returns (end: End)
    modifies avf, vmnet
    ensures old(vmnet.written) <= vmnet.written
                               <= old(vmnet.written) + Encode(Forwarded(old(avf.queue)))
    ensures vmnet.errors + avf.errors == old(vmnet.errors + avf.errors) + if end.IoError? then 1 else 0
    ensures !end.IoError? ==> end.Closed? && vmnet.written == old(vmnet.written) + Encode(Forwarded(old(avf.queue)))
  {
    hide Encode, EncodeOne, Forwarded, Cut;
    ghost var goal := old(vmnet.written) + Encode(Forwarded(old(avf.queue)));
    while true
      invariant old(vmnet.written) <= vmnet.written
      invariant vmnet.written + Encode(Forwarded(avf.queue)) == goal
      invariant vmnet.errors == old(vmnet.errors) && avf.errors == old(avf.errors)
      decreases |avf.queue|
    {
      ghost var w := vmnet.written;
      ForwardedNext(avf.queue);
      var failed, frame := avf.Recv();
      if failed {
        return IoError;
      }
      if frame == [] {
        assert w + [] == w;
        return Closed;
      }
      var ok := WriteFrame(vmnet, frame);
      PartOfMore(w, vmnet.written, EncodeOne(frame), Encode(Forwarded(avf.queue)));
      if !ok {
        return IoError;
      }
    }
  }
}
