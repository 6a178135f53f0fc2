/** File descriptors, as far as the relays can see them.

    A byte stream may answer a read with any non-empty part of what was asked for, and a
    write may be short; either may fail at any time.  The bodies below leave these choices
    open, so a method verified against them is correct for every pattern of short reads and
    writes. */
module Streams {
  import opened Bytes

  /** The reading end of a byte stream: `pending` is all that the peer writes before it closes. */
  class ByteSource {
    var pending: seq<byte>
    ghost var errors: nat               // how many calls have returned an error

    constructor (bytes: seq<byte>)
      ensures pending == bytes && errors == 0
    {
      pending, errors := bytes, 0;
    }

    /** read(2): up to `len` bytes go to `buf[at..]`; 0 at the end of the stream, -1 on error. */
    method Read(buf: array<byte>, at: nat, len: nat) returns (r: int)
      requires 0 < len && at + len <= buf.Length
      modifies this, buf
      ensures r <= len
      ensures buf[..at] == old(buf[..at])
      ensures r > 0 ==> r <= |old(pending)| && buf[at..at + r] == old(pending)[..r]
                        && pending == old(pending)[r..]
      ensures r <= 0 ==> pending == old(pending)
      ensures r == 0 ==> pending == []
      ensures errors == old(errors) + if r < 0 then 1 else 0
    {
      if * {
        errors := errors + 1;
        return -1;
      }
      if pending == [] {
        return 0;
      }
      r :| 0 < r <= len && r <= |pending|;
      for i := 0 to r
        invariant pending == old(pending) && errors == old(errors)
        invariant buf[..at] == old(buf[..at])
        invariant buf[at..at + i] == pending[..i]
      {
        buf[at + i] := pending[i];
      }
      pending := pending[r..];
    }
  }

  /** The writing end of a byte stream: `written` is all that the peer can ever read. */
  class ByteSink {
    var written: seq<byte>
    ghost var errors: nat

    constructor ()
      ensures written == [] && errors == 0
    {
      written, errors := [], 0;
    }

    /** write(2): a non-empty prefix of `data` is taken, or the call fails. */
    method Write(data: seq<byte>) returns (r: int)
      requires data != []
      modifies this
      ensures r <= |data| && r != 0
      ensures errors == old(errors) + if r < 0 then 1 else 0
      ensures written == old(written) + if r > 0 then data[..r] else []
    {
      if * {
        errors := errors + 1;
        return -1;
      }
      r :| 0 < r <= |data|;
      written := written + data[..r];
    }
  }

  /** How a loop over a descriptor ended. */
  datatype Io = Done | Eof | Failed

  /** Reads until `buf[..n]` is full, however short the reads are: it fails exactly when a read does. */
  method ReadExact(fd: ByteSource, buf: array<byte>, n: nat) returns (io: Io)
    requires n <= buf.Length
    modifies fd, buf
    ensures io.Done? ==> n <= |old(fd.pending)| && buf[..n] == old(fd.pending)[..n]
                         && fd.pending == old(fd.pending)[n..]
    ensures io.Eof? ==> |old(fd.pending)| < n && fd.pending == []
    ensures fd.errors == old(fd.errors) + if io.Failed? then 1 else 0
    ensures |fd.pending| <= |old(fd.pending)|
  {
    var total := 0;
    while total < n
      invariant 0 <= total <= n && total <= |old(fd.pending)|
      invariant buf[..total] == old(fd.pending)[..total]
      invariant fd.pending == old(fd.pending)[total..] && fd.errors == old(fd.errors)
    {
      var r := fd.Read(buf, total, n - total);
      if r <= 0 {
        return if r == 0 then Eof else Failed;
      }
      assert buf[..total + r] == buf[..total] + buf[total..total + r];
      total := total + r;
    }
    return Done;
  }

  /** Writes all of `data`, however short the writes are, or a prefix of it when a write fails. */
  method WriteAll(fd: ByteSink, data: seq<byte>) returns (ok: bool)
    modifies fd
    ensures ok ==> fd.written == old(fd.written) + data
    ensures fd.errors == old(fd.errors) + if ok then 0 else 1
    ensures old(fd.written) <= fd.written <= old(fd.written) + data
  {
    var total := 0;
    while total < |data|
      invariant 0 <= total <= |data|
      invariant fd.written == old(fd.written) + data[..total] && fd.errors == old(fd.errors)
    {
      var r := fd.Write(data[total..]);
      if r <= 0 {
        return false;
      }
      assert data[..total + r] == data[..total] + data[total..][..r];
      total := total + r;
    }
    return true;
  }
}
