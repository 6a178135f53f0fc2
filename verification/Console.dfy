/** The serial console: a ring of recent output, replayed to each client that connects. */
module Console {
  import opened Bytes

  const RING_BYTES: nat := 256 * 1024

  /** What a buffer of `n` bytes should hold after `s` has gone through it. */
  function LastN(n: nat, s: seq<byte>): (t: seq<byte>)
    ensures |t| <= n && |t| <= |s| && (|s| <= n ==> t == s)
  {
    if |s| <= n then s else s[|s| - n..]
  }

  lemma LastNOfSuffix(n: nat, p: seq<byte>, s: seq<byte>)
    requires |s| >= n
    ensures LastN(n, p + s) == LastN(n, s)
  {
    assert (p + s)[|p + s| - n..] == s[|s| - n..];
  }

  lemma LastNAgain(n: nat, a: seq<byte>, b: seq<byte>)
    ensures LastN(n, LastN(n, a) + b) == LastN(n, a + b)
    ensures LastN(n, a + LastN(n, b)) == LastN(n, a + b)
  {
    var t, u := LastN(n, a), LastN(n, b);
    if |a| > n {
      assert a + b == a[..|a| - n] + (t + b);
      LastNOfSuffix(n, a[..|a| - n], t + b);
    }
    if |b| > n {
      assert a + b == (a + b[..|b| - n]) + u;
      LastNOfSuffix(n, a + b[..|b| - n], u);
      LastNOfSuffix(n, a, u);
    }
  }

  lemma ModOnce(k: int, cap: int)
    requires 0 <= k < 2 * cap
    ensures k % cap == if k < cap then k else k - cap
  {
    if k >= cap {
      assert k == cap + (k - cap);
      assert k / cap == 1;
    }
  }

  /** The bytes of the ring, oldest first. */
  function Stored(buf: seq<byte>, head: nat, len: nat): (s: seq<byte>)
    requires len <= |buf|
    ensures |s| == len
  {
    seq(len, i requires 0 <= i < len => buf[(head + i) % |buf|])
  }

  predicate InRange(head: nat, len: nat, cap: nat) {
    len <= cap && (head < cap || (cap == 0 && head == 0))
  }

  lemma StoredAt(buf: seq<byte>, head: nat, len: nat, i: nat)
    requires InRange(head, len, |buf|) && i < len
    ensures Stored(buf, head, len)[i] == if head + i < |buf| then buf[head + i] else buf[head + i - |buf|]
  {
    ModOnce(head + i, |buf|);
  }

  /** One byte is written just after the newest one, over the oldest when the ring is full. */
  lemma StoreOne(buf: seq<byte>, head: nat, len: nat, b: byte)
    requires InRange(head, len, |buf|) && buf != []
    ensures var cap := |buf|;
            var buf' := buf[(head + len) % cap := b];
            && (len < cap ==> Stored(buf', head, len + 1) == LastN(cap, Stored(buf, head, len) + [b]))
            && (len == cap ==> Stored(buf', (head + 1) % cap, len) == LastN(cap, Stored(buf, head, len) + [b]))
  {
    var cap := |buf|;
    var buf' := buf[(head + len) % cap := b];
    ModOnce(head + len, cap);
    var (head', len') := if len < cap then (head, len + 1) else ((head + 1) % cap, len);
    ModOnce(head + 1, cap);
    var want := LastN(cap, Stored(buf, head, len) + [b]);
    forall i | 0 <= i < len'
      ensures Stored(buf', head', len')[i] == want[i]
    {
      StoredAt(buf', head', len', i);
      if len < cap && i < len {
        StoredAt(buf, head, len, i);
      } else if len == cap && i + 1 < cap {
        StoredAt(buf, head, len, i + 1);
      }
    }
  }

  lemma StoredInTwoParts(buf: seq<byte>, head: nat, len: nat)
    requires InRange(head, len, |buf|)
    ensures head + len <= |buf| ==> Stored(buf, head, len) == buf[head..head + len]
    ensures head + len > |buf| ==> Stored(buf, head, len) == buf[head..] + buf[..len - (|buf| - head)]
  {
    forall i | 0 <= i < len
      ensures Stored(buf, head, len)[i] == if head + i < |buf| then buf[head + i] else buf[head + i - |buf|]
    {
      StoredAt(buf, head, len, i);
    }
  }

  /** A circular buffer that refines "the last `cap` bytes". */
  class ConsoleRingBuffer {
    var buf: array<byte>
    var head: nat
    var len: nat

    ghost predicate Valid()
      reads this, buf
    {
      InRange(head, len, buf.Length)
    }

    ghost function Contents(): seq<byte>
      reads this, buf
      requires Valid()
    {
      Stored(buf[..], head, len)
    }

    constructor (capacity: nat)
      ensures Valid() && fresh(buf) && buf.Length == capacity && Contents() == []
    {
      buf := new byte[capacity](_ => 0);
      head, len := 0, 0;
    }

    /** One turn of the pushing loop: the byte goes to the tail. */
    method PushByte(b: byte)
      requires Valid() && buf.Length > 0
      modifies this`head, this`len, buf
      ensures Valid()
      ensures Contents() == LastN(buf.Length, old(Contents()) + [b])
    {
      hide Stored, LastN;
      var cap := buf.Length;
      ghost var was := buf[..];
      StoreOne(was, head, len, b);
      ModOnce(head + 1, cap);
      var tail := (head + len) % cap;
      buf[tail] := b;
      assert buf[..] == was[tail := b];
      if len < cap {
        len := len + 1;
      } else {
        head := (head + 1) % cap;
      }
    }

    method PushSlice(data: seq<byte>)
      requires Valid()
      modifies this`head, this`len, buf
      ensures Valid()
      ensures Contents() == LastN(buf.Length, old(Contents()) + data)
    {
      var cap := buf.Length;
      var kept := if |data| > cap then data[|data| - cap..] else data;
      assert kept == LastN(cap, data);
      ghost var before := Contents();
      assert before + kept[..0] == before == LastN(cap, before);
      hide Stored, LastN;
      for i := 0 to |kept|
        invariant Valid()
        invariant Contents() == LastN(cap, before + kept[..i])
      {
        PushByte(kept[i]);
        assert before + kept[..i + 1] == before + kept[..i] + [kept[i]];
        LastNAgain(cap, before + kept[..i], [kept[i]]);
      }
      assert kept[..|kept|] == kept;
      LastNAgain(cap, before, data);
    }

    /** The writes that replay the ring: none, one, or two when it wraps. */
    method ReplayToFd() returns (writes: seq<seq<byte>>)
      requires Valid()
      ensures Joined(writes) == Contents()
      ensures |writes| <= 2 && forall w <- writes :: w != []
    {
      StoredInTwoParts(buf[..], head, len);
      if len == 0 {
        return [];
      }
      var firstEnd := head + len;
      if firstEnd <= buf.Length {
        writes := [buf[head..firstEnd]];
      } else {
        var firstLen := buf.Length - head;
        var secondLen := len - firstLen;
        writes := [buf[head..], buf[..secondLen]];
        assert buf[..][head..] == buf[head..];
        assert Joined(writes) == buf[head..] + Joined([buf[..secondLen]]);
      }
    }
  }

  function Joined(parts: seq<seq<byte>>): seq<byte> {
    if parts == [] then [] else parts[0] + Joined(parts[1..])
  }

  lemma {:induction false} JoinedSnoc(parts: seq<seq<byte>>, part: seq<byte>)
    ensures Joined(parts + [part]) == Joined(parts) + part
  {
    if parts == [] {
      assert parts + [part] == [part];
    } else {
      assert (parts + [part])[1..] == parts[1..] + [part];
      JoinedSnoc(parts[1..], part);
    }
  }

  /** However the bytes were cut into pushes, the last `n` are kept. */
  function PushAll(n: nat, pushes: seq<seq<byte>>): seq<byte> {
    if pushes == [] then []
    else LastN(n, PushAll(n, pushes[..|pushes| - 1]) + pushes[|pushes| - 1])
  }

  lemma {:induction false} PushesKeepTheLast(n: nat, pushes: seq<seq<byte>>)
    ensures PushAll(n, pushes) == LastN(n, Joined(pushes))
  {
    if pushes != [] {
      var k := |pushes| - 1;
      PushesKeepTheLast(n, pushes[..k]);
      assert pushes == pushes[..k] + [pushes[k]];
      JoinedSnoc(pushes[..k], pushes[k]);
      LastNAgain(n, Joined(pushes[..k]), pushes[k]);
    }
  }

  /** What wakes the relay: console output with no client attached, or a client, whose session
      then takes all output for itself. */
  datatype Wakeup = Drain(data: seq<byte>) | Client(live: seq<byte>)

  function Drained(ws: seq<Wakeup>): seq<byte> {
    if ws == [] then []
    else Drained(ws[..|ws| - 1]) + (match ws[|ws| - 1] case Drain(d) => d case Client(_) => [])
  }

  /** Each client in turn is written the last 256 KiB that came while nobody was attached, then its
      own session. */
  function Screens(ws: seq<Wakeup>): seq<seq<byte>> {
    if ws == [] then []
    else
      var before := ws[..|ws| - 1];
      Screens(before) + match ws[|ws| - 1]
                        case Drain(_) => []
                        case Client(live) => [LastN(RING_BYTES, Drained(before)) + live]
  }

  /** Everything that the VM wrote, in order. */
  function Output(ws: seq<Wakeup>): seq<byte> {
    if ws == [] then []
    else Output(ws[..|ws| - 1]) + match ws[|ws| - 1] case Drain(d) => d case Client(live) => live
  }

  lemma {:induction false} OnlyDrained(ws: seq<Wakeup>)
    requires forall w <- ws :: w.Drain?
    ensures Drained(ws) == Output(ws) && Screens(ws) == []
  {
    if ws != [] {
      assert ws[|ws| - 1] in ws;
      OnlyDrained(ws[..|ws| - 1]);
    }
  }

  /** The first client misses nothing and gets all in order, exactly as long as no more than 256 KiB
      came before it. */
  lemma FirstClientSeesAll(ws: seq<Wakeup>, live: seq<byte>)
    requires forall w <- ws :: w.Drain?
    ensures Screens(ws + [Client(live)]) == [Output(ws + [Client(live)])] <==> |Output(ws)| <= RING_BYTES
  {
    hide RING_BYTES;
    OnlyDrained(ws);
    var all := ws + [Client(live)];
    assert all[..|ws|] == ws;
    assert Screens(all) == [LastN(RING_BYTES, Output(ws)) + live];
    if |Output(ws)| > RING_BYTES {
      assert |LastN(RING_BYTES, Output(ws)) + live| < |Output(all)|;
    }
  }

  /** What was replayed to one client is replayed to the next as well. */
  lemma ReplayedAgain(ws: seq<Wakeup>, a: seq<byte>, b: seq<byte>) returns (replay: seq<byte>)
    ensures Screens(ws + [Client(a), Client(b)]) == Screens(ws) + [replay + a, replay + b]
    ensures replay == LastN(RING_BYTES, Drained(ws))
  {
    replay := LastN(RING_BYTES, Drained(ws));
    var one, two := ws + [Client(a)], ws + [Client(a), Client(b)];
    assert one[..|ws|] == ws && two[..|ws| + 1] == one;
    assert Drained(one) == Drained(ws) + [] == Drained(ws);
  }

  method ConsoleRelayLoop(ws: seq<Wakeup>) returns (screens: seq<seq<byte>>)
    ensures screens == Screens(ws)
  {
    var ring := new ConsoleRingBuffer(RING_BYTES);
    screens := [];
    for i := 0 to |ws|
      invariant fresh(ring) && fresh(ring.buf) && ring.Valid() && ring.buf.Length == RING_BYTES
      invariant ring.Contents() == LastN(RING_BYTES, Drained(ws[..i]))
      invariant screens == Screens(ws[..i])
    {
      assert ws[..i + 1][..i] == ws[..i];
      match ws[i] {
        case Client(live) =>
          var writes := ring.ReplayToFd();
          screens := screens + [Joined(writes) + live];
        case Drain(data) =>
          LastNAgain(RING_BYTES, Drained(ws[..i]), data);
          ring.PushSlice(data);
      }
    }
    assert ws[..|ws|] == ws;
  }
}
