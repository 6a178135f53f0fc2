/** The ARP, Neighbour Discovery and Router Advertisement frames that the relay and the helper
    daemon build, and what a receiver reads from them. */
module NdpFrames {
  import opened Bytes
  import opened Checksum
  import opened Wrappers

  type Mac = m: seq<byte> | |m| == 6 witness [0, 0, 0, 0, 0, 0]
  type Ip4 = a: seq<byte> | |a| == 4 witness [0, 0, 0, 0]
  type Ip6 = a: seq<byte> | |a| == 16 witness [0, 0, 0, 0, 0, 0, 0, 0, 0, 0, 0, 0, 0, 0, 0, 0]

  const GATEWAY_MAC: Mac := [0x02, 0x00, 0x00, 0x00, 0x00, 0x01]
  const GATEWAY_IP6_LL: Ip6 := [0xfe, 0x80, 0, 0, 0, 0, 0, 0, 0, 0, 0, 0, 0, 0, 0, 1]
  const GATEWAY_IP6_ULA: Ip6 := [0xfd, 0x00, 0, 0, 0, 0, 0, 0, 0, 0, 0, 0, 0, 0, 0, 1]
  const ALL_NODES_MAC: Mac := [0x33, 0x33, 0x00, 0x00, 0x00, 0x01]
  const ALL_NODES_IP6: Ip6 := [0xff, 0x02, 0, 0, 0, 0, 0, 0, 0, 0, 0, 0, 0, 0, 0, 1]

  const UNSPECIFIED: Ip6 := [0, 0, 0, 0, 0, 0, 0, 0, 0, 0, 0, 0, 0, 0, 0, 0]

  // ---- What a receiver checks ------------------------------------------------------------

  predicate Multicast(a: Ip6) {
    a[0] == 0xFF
  }

  predicate LinkLocal(a: Ip6) {
    a[0] == 0xFE && a[1] / 64 == 2
  }

  /** The multicast group of those who may hold an address: section 2.7.1 of RFC 4291. */
  predicate SolicitedNode(a: Ip6) {
    a[..13] == [0xFF, 0x02, 0, 0, 0, 0, 0, 0, 0, 0, 0, 1, 0xFF]
  }

  /** Sections 2.5.2 and 2.7 of RFC 4291: nothing is sent to the unspecified address, or from a
      multicast one. */
  predicate Deliverable(src: Ip6, dst: Ip6) {
    dst != UNSPECIFIED && !Multicast(src)
  }

  /** An ICMPv6 frame with these addresses whose headers, hop limit and checksum are right. */
  ghost predicate NdpFrame(f: seq<byte>, ethDst: Mac, ethSrc: Mac, src: Ip6, dst: Ip6) {
    && |f| >= 58
    && f[..6] == ethDst && f[6..12] == ethSrc && f[12..14] == [0x86, 0xDD]
    && f[14] / 16 == 6 && FromU16Be(f[18], f[19]) == |f| - 54
    && f[20] == 58 && f[21] == 255
    && f[22..38] == src && f[38..54] == dst
    && Accepts(src, dst, f[54..])
  }

  datatype NdpOption = NdpOption(kind: byte, body: seq<byte>)

  /** Options are counted in units of eight bytes and must fill the message. */
  function Options(s: seq<byte>): Option<seq<NdpOption>>
    decreases |s|
  {
    if s == [] then Some([])
    else if |s| < 2 || s[1] == 0 || |s| < 8 * (s[1] as int) then None
    else
      var n := 8 * (s[1] as int);
      match Options(s[n..])
      case None => None
      case Some(os) => Some([NdpOption(s[0], s[2..n])] + os)
  }

  /** Section 6.1.2 of RFC 4861. */
  predicate ValidRa(src: Ip6, dst: Ip6, m: seq<byte>) {
    Deliverable(src, dst) && LinkLocal(src) && |m| >= 16 && m[0] == 134 && m[1] == 0 && Options(m[16..]).Some?
  }

  /** Section 4.4 of RFC 4861: an answer to a solicitation; an answer that replaces what is cached. */
  predicate SaysSolicited(m: seq<byte>)
    requires |m| >= 24
  {
    m[4] / 64 % 2 == 1
  }

  predicate SaysOverride(m: seq<byte>)
    requires |m| >= 24
  {
    m[4] / 32 % 2 == 1
  }

  /** Section 7.1.2 of RFC 4861: to a multicast destination nothing may claim to be solicited. */
  predicate ValidNa(src: Ip6, dst: Ip6, m: seq<byte>) {
    && Deliverable(src, dst)
    && |m| >= 24 && m[0] == 136 && m[1] == 0 && m[8] != 0xFF && Options(m[24..]).Some?
    && (Multicast(dst) ==> !SaysSolicited(m))
  }

  /** Section 7.1.1 of RFC 4861: one without a source goes to a solicited-node group and tells no
      link-layer address. */
  predicate ValidNs(src: Ip6, dst: Ip6, m: seq<byte>) {
    && Deliverable(src, dst)
    && |m| >= 24 && m[0] == 135 && m[1] == 0 && m[8] != 0xFF && Options(m[24..]).Some?
    && (src == UNSPECIFIED ==> SolicitedNode(dst) && forall o <- Options(m[24..]).value :: o.kind != 1)
  }

  datatype RaInfo = RaInfo(hopLimit: int, managed: bool, other: bool, lifetime: int)

  /** Section 4.2 of RFC 4861. */
  function ReadRaHead(m: seq<byte>): RaInfo
    requires |m| >= 16
  {
    RaInfo(m[4], m[5] / 128 == 1, m[5] / 64 % 2 == 1, FromU16Be(m[6], m[7]))
  }

  datatype PrefixInfo = PrefixInfo(bits: int, onLink: bool, autonomous: bool, valid: int, preferred: int, prefix: Ip6)

  /** Section 4.6.2 of RFC 4861. */
  function ReadPrefix(body: seq<byte>): PrefixInfo
    requires |body| == 30
  {
    PrefixInfo(body[0], body[1] / 128 == 1, body[1] / 64 % 2 == 1,
               FromU32Be(body[2..6]), FromU32Be(body[6..10]), body[14..30])
  }

  /** Section 5.5.3 of RFC 4862: a host makes itself an address from such a prefix. */
  predicate Configures(p: PrefixInfo) {
    p.autonomous && p.bits == 64 && !LinkLocal(p.prefix) && 0 < p.preferred <= p.valid
  }

  // ---- What the messages are -------------------------------------------------------------

  /** A solicitation or an advertisement with one link-layer address option. */
  function NeighbourMessage(kind: byte, flags: byte, target: Ip6, option: byte, mac: Mac): (m: seq<byte>)
    ensures |m| == 32 && m[2] == m[3] == 0
  {
    [kind, 0, 0, 0, flags, 0, 0, 0] + target + [option, 1] + mac
  }

  function RaMessage(prefix: Ip6): (m: seq<byte>)
    ensures |m| == 56 && m[2] == m[3] == 0
  {
    [134, 0, 0, 0, 64, 0] + U16Be(1800) + [0, 0, 0, 0, 0, 0, 0, 0]
    + [3, 4, 64, 0xC0] + U32Be(86400) + U32Be(14400) + [0, 0, 0, 0] + prefix
    + [1, 1] + GATEWAY_MAC
  }

  function Ip6Header(len: int, src: Ip6, dst: Ip6): (h: seq<byte>)
    requires 0 <= len < TWO_16
    ensures |h| == 40
  {
    [0x60, 0, 0, 0] + U16Be(len) + [58, 255] + src + dst
  }

  /** The message with its checksum, under its headers. */
  function Framed(ethDst: Mac, ethSrc: Mac, src: Ip6, dst: Ip6, m: seq<byte>): (f: seq<byte>)
    requires 4 <= |m| < TWO_16
    ensures |f| == 54 + |m|
  {
    ethDst + ethSrc + [0x86, 0xDD] + Ip6Header(|m|, src, dst) + Sealed(src, dst, m)
  }

  lemma FramedIsAccepted(ethDst: Mac, ethSrc: Mac, src: Ip6, dst: Ip6, m: seq<byte>)
    requires 4 <= |m| < TWO_16 && m[2] == m[3] == 0
    ensures NdpFrame(Framed(ethDst, ethSrc, src, dst, m), ethDst, ethSrc, src, dst)
    ensures Framed(ethDst, ethSrc, src, dst, m)[54..] == Sealed(src, dst, m)
  {
    hide Sealed, Accepts;
    var f := Framed(ethDst, ethSrc, src, dst, m);
    var h := Ip6Header(|m|, src, dst);
    assert f[14..54] == h;
    assert f[14] == h[0] && f[18] == h[4] && f[19] == h[5] && f[20] == h[6] && f[21] == h[7];
    assert f[22..38] == h[8..24] == src;
    assert f[38..54] == h[24..40] == dst;
    assert f[54..] == Sealed(src, dst, m);
    ShortPayloadsAccepted(src, dst, m);
  }

  lemma OptionsCons(kind: byte, units: byte, body: seq<byte>, rest: seq<byte>)
    requires units > 0 && |body| + 2 == 8 * (units as int)
    ensures Options([kind, units] + body + rest)
         == match Options(rest) case None => None case Some(os) => Some([NdpOption(kind, body)] + os)
  {
    var s := [kind, units] + body + rest;
    assert s[2..8 * (units as int)] == body && s[8 * (units as int)..] == rest;
  }

  lemma NeighbourOptions(kind: byte, flags: byte, target: Ip6, option: byte, mac: Mac, src: Ip6, dst: Ip6)
    ensures var m := Sealed(src, dst, NeighbourMessage(kind, flags, target, option, mac));
            && |m| == 32 && m[0] == kind && m[1] == 0 && m[4] == flags && m[8..24] == target && m[8] == target[0]
            && Options(m[24..]) == Some([NdpOption(option, mac)])
  {
    hide Checksum.Checksum;
    var m0 := NeighbourMessage(kind, flags, target, option, mac);
    var m := Sealed(src, dst, m0);
    assert m[4..] == m0[4..];
    assert m[8..24] == m[4..][4..20] == target;
    assert m[8] == m[8..24][0];
    assert m[4] == m[4..][0];
    assert m[0] == m[..2][0] && m[1] == m[..2][1];
    assert m[24..] == m[4..][20..] == [option, 1] + mac + [];
    OptionsCons(option, 1, mac, []);
    assert [NdpOption(option, mac)] + [] == [NdpOption(option, mac)];
  }

  function PrefixOption(prefix: Ip6): seq<byte> {
    [64, 0xC0] + U32Be(86400) + U32Be(14400) + [0, 0, 0, 0] + prefix
  }

  lemma RaOptions(prefix: Ip6, src: Ip6, dst: Ip6)
    ensures var m := Sealed(src, dst, RaMessage(prefix));
            && |m| == 56 && m[0] == 134 && m[1] == 0 && m[4..8] == [64, 0] + U16Be(1800)
            && Options(m[16..]) == Some([NdpOption(3, PrefixOption(prefix)), NdpOption(1, GATEWAY_MAC)])
  {
    var m0 := RaMessage(prefix);
    var m := Sealed(src, dst, m0);
    hide Checksum.Checksum;
    var more := [1, 1] + GATEWAY_MAC;
    RaParts(prefix);
    hide RaMessage, PrefixOption, Sealed;
    assert m[0] == m[..2][0] && m[1] == m[..2][1];
    assert m[16..] == m[4..][12..];
    OptionsCons(3, 4, PrefixOption(prefix), more);
    assert more == [1, 1] + GATEWAY_MAC + [];
    OptionsCons(1, 1, GATEWAY_MAC, []);
    assert [NdpOption(1, GATEWAY_MAC)] + [] == [NdpOption(1, GATEWAY_MAC)];
    assert [NdpOption(3, PrefixOption(prefix))] + [NdpOption(1, GATEWAY_MAC)]
        == [NdpOption(3, PrefixOption(prefix)), NdpOption(1, GATEWAY_MAC)];
    assert m[4..8] == m[4..][..4];
  }

  lemma RaHeadIsRead(prefix: Ip6, src: Ip6, dst: Ip6)
    ensures ReadRaHead(Sealed(src, dst, RaMessage(prefix))) == RaInfo(64, false, false, 1800)
  {
    RaOptions(prefix, src, dst);
    hide Sealed, RaMessage;
    var m := Sealed(src, dst, RaMessage(prefix));
    assert m[4] == m[4..8][0] && m[5] == m[4..8][1] && m[6] == m[4..8][2] && m[7] == m[4..8][3];
  }

  lemma RaParts(prefix: Ip6)
    ensures var m := RaMessage(prefix);
            && m[..2] == [134, 0] && m[4..][..4] == [64, 0] + U16Be(1800)
            && m[4..][12..] == [3, 4] + PrefixOption(prefix) + ([1, 1] + GATEWAY_MAC)
            && |PrefixOption(prefix)| == 30
  {
    hide U16Be, U32Be;
    var head := [134, 0, 0, 0, 64, 0] + U16Be(1800) + [0, 0, 0, 0, 0, 0, 0, 0];
    var options := [3, 4] + PrefixOption(prefix) + ([1, 1] + GATEWAY_MAC);
    assert RaMessage(prefix) == head + options;
    HeadAndOptions(head, options, U16Be(1800));
  }

  lemma HeadAndOptions(head: seq<byte>, options: seq<byte>, lifetime: seq<byte>)
    requires |lifetime| == 2 && head == [134, 0, 0, 0, 64, 0] + lifetime + [0, 0, 0, 0, 0, 0, 0, 0]
    ensures var m := head + options;
            m[..2] == [134, 0] && m[4..][..4] == [64, 0] + lifetime && m[4..][12..] == options
  {
  }

  /** A host reads the prefix for both uses, for a day, and configures an address from it. */
  lemma PrefixIsRead(prefix: Ip6)
    ensures |PrefixOption(prefix)| == 30
    ensures ReadPrefix(PrefixOption(prefix)) == PrefixInfo(64, true, true, 86400, 14400, prefix)
    ensures Configures(ReadPrefix(PrefixOption(prefix))) <==> !LinkLocal(prefix)
  {
    U32RoundTrip(86400);
    U32RoundTrip(14400);
    hide U32Be, FromU32Be;
    var o := PrefixOption(prefix);
    assert o[2..6] == U32Be(86400) && o[6..10] == U32Be(14400) && o[14..30] == prefix;
  }

  // ---- The builders ----------------------------------------------------------------------

  method CopyFromSlice(buf: array<byte>, at: nat, s: seq<byte>)
    requires at + |s| <= buf.Length
    modifies buf
    ensures buf[..at + |s|] == old(buf[..at]) + s
    ensures buf[at + |s|..] == old(buf[at + |s|..])
  {
    for i := 0 to |s|
      invariant buf[..at + i] == old(buf[..at]) + s[..i]
      invariant buf[at + i..] == old(buf[at + i..])
    {
      assert s[..i + 1] == s[..i] + [s[i]];
      assert old(buf[at + i..])[1..] == old(buf[at + i + 1..]);
      buf[at + i] := s[i];
      assert buf[..at + i + 1] == buf[..at + i] + [s[i]];
    }
    assert s[..|s|] == s;
  }

  function Zeros(n: nat): seq<byte> {
    seq(n, _ => 0)
  }

  /** Stores the relay's checksum of a message in the message. */
  method Seal(icmp: array<byte>, src: Ip6, dst: Ip6)
    requires icmp.Length >= 4
    modifies icmp
    ensures icmp[..] == Sealed(src, dst, old(icmp[..]))
  {
    hide Checksum.Checksum;
    var cksum := RelayChecksum(src, dst, icmp[..]);
    icmp[2], icmp[3] := cksum / 256, cksum % 256;
  }

  function RaHead(): (h: seq<byte>)
    ensures |h| == 20
  {
    [134, 0, 0, 0, 64, 0] + U16Be(1800) + [0, 0, 0, 0, 0, 0, 0, 0] + [3, 4, 64, 0xC0]
  }

  method FillRaHead(icmp: array<byte>)
    requires icmp.Length == 56 && icmp[..] == Zeros(56)
    modifies icmp
    ensures icmp[..20] == RaHead() && icmp[20..] == Zeros(36)
  {
    hide U16Be;
    icmp[0] := 134;
    icmp[4] := 64;
    assert icmp[..6] == [134, 0, 0, 0, 64, 0];
    assert icmp[8..] == Zeros(48);
    CopyFromSlice(icmp, 6, U16Be(1800));
    assert icmp[8..] == Zeros(48);
    icmp[16], icmp[17], icmp[18], icmp[19] := 3, 4, 64, 0xC0;
    assert icmp[20..] == Zeros(36);
    assert icmp[..8] == [134, 0, 0, 0, 64, 0] + U16Be(1800);
    assert icmp[8..16] == [0, 0, 0, 0, 0, 0, 0, 0];
    assert icmp[..20] == icmp[..8] + icmp[8..16] + icmp[16..20];
  }

  method FillRa(icmp: array<byte>, guaPrefix: Ip6)
    requires icmp.Length == 56 && icmp[..] == Zeros(56)
    modifies icmp
    ensures icmp[..] == RaMessage(guaPrefix)
  {
    FillRaHead(icmp);
    hide U32Be;
    ghost var zeros := icmp[28..];
    assert zeros == icmp[20..][8..] == Zeros(28);
    CopyFromSlice(icmp, 20, U32Be(86400));
    assert icmp[28..] == icmp[24..][4..] == zeros;
    CopyFromSlice(icmp, 24, U32Be(14400));
    ghost var middle := RaHead() + U32Be(86400) + U32Be(14400);
    assert icmp[..28] == middle;
    assert icmp[28..32] == [0, 0, 0, 0];
    assert icmp[..32] == icmp[..28] + icmp[28..32];
    CopyFromSlice(icmp, 32, guaPrefix);
    FillSlla(icmp, middle + [0, 0, 0, 0] + guaPrefix);
  }

  method FillSlla(icmp: array<byte>, ghost most: seq<byte>)
    requires icmp.Length == 56 && |most| == 48 && icmp[..48] == most
    modifies icmp
    ensures icmp[..] == most + [1, 1] + GATEWAY_MAC
  {
    icmp[48], icmp[49] := 1, 1;
    assert icmp[..50] == most + [1, 1];
    CopyFromSlice(icmp, 50, GATEWAY_MAC);
    assert icmp[..] == icmp[..56];
  }

  method BuildRa(guaPrefix: Ip6) returns (f: seq<byte>)
    ensures f == Framed(ALL_NODES_MAC, GATEWAY_MAC, GATEWAY_IP6_LL, ALL_NODES_IP6, RaMessage(guaPrefix))
  {
    hide Sealed, RaMessage;
    var icmp := new byte[56](_ => 0);
    assert icmp[..] == Zeros(56);
    FillRa(icmp, guaPrefix);
    Seal(icmp, GATEWAY_IP6_LL, ALL_NODES_IP6);
    f := ALL_NODES_MAC + GATEWAY_MAC + [0x86, 0xDD];
    f := f + ([0x60, 0x00, 0x00, 0x00] + U16Be(56) + [58, 255] + GATEWAY_IP6_LL + ALL_NODES_IP6) + icmp[..];
  }

  method FillNeighbour(icmp: array<byte>, kind: byte, flags: byte, target: Ip6, option: byte, mac: Mac)
    requires icmp.Length == 32 && icmp[..] == Zeros(32)
    modifies icmp
    ensures icmp[..] == NeighbourMessage(kind, flags, target, option, mac)
  {
    icmp[0], icmp[4] := kind, flags;
    assert icmp[..8] == [kind, 0, 0, 0, flags, 0, 0, 0];
    CopyFromSlice(icmp, 8, target);
    icmp[24], icmp[25] := option, 1;
    assert icmp[..26] == icmp[..24] + [option, 1];
    CopyFromSlice(icmp, 26, mac);
    assert icmp[..] == icmp[..32];
  }

  method BuildNdpNa(vmMac: Mac, target: Ip6, dst: Ip6) returns (f: seq<byte>)
    ensures f == Framed(vmMac, GATEWAY_MAC, target, dst, NeighbourMessage(136, 0x60, target, 2, GATEWAY_MAC))
  {
    hide Sealed, NeighbourMessage;
    var icmp := new byte[32](_ => 0);
    assert icmp[..] == Zeros(32);
    FillNeighbour(icmp, 136, 0x60, target, 2, GATEWAY_MAC);
    Seal(icmp, target, dst);
    f := vmMac + GATEWAY_MAC + [0x86, 0xDD];
    f := f + ([0x60, 0x00, 0x00, 0x00] + U16Be(32) + [58, 255] + target + dst) + icmp[..];
  }

  // ---- The helper daemon's builders ------------------------------------------------------

  method FillEthernet(frame: array<byte>, ethDst: Mac, ethSrc: Mac)
    requires frame.Length == 86 && frame[..] == Zeros(86)
    modifies frame
    ensures frame[..14] == ethDst + ethSrc + [0x86, 0xDD] && frame[14..] == Zeros(72)
  {
    ghost var zeros := frame[14..];
    assert zeros == Zeros(72);
    CopyFromSlice(frame, 0, ethDst);
    assert frame[14..] == frame[6..][8..] == zeros;
    CopyFromSlice(frame, 6, ethSrc);
    assert frame[14..] == frame[12..][2..] == zeros;
    CopyFromSlice(frame, 12, [0x86, 0xDD]);
  }

  /** The headers and the message, written into a zeroed buffer. */
  method FillFrame(frame: array<byte>, ethDst: Mac, ethSrc: Mac, src: Ip6, dst: Ip6, icmp: array<byte>)
    requires icmp.Length == 32 && frame.Length == 86 && frame[..] == Zeros(86) && frame != icmp
    modifies frame
    ensures frame[..] == ethDst + ethSrc + [0x86, 0xDD] + Ip6Header(32, src, dst) + icmp[..]
  {
    hide U16Be;
    ghost var eth := ethDst + ethSrc + [0x86, 0xDD];
    FillEthernet(frame, ethDst, ethSrc);
    frame[14] := 0x60;
    assert frame[14..18] == [0x60, 0, 0, 0];
    assert frame[..18] == frame[..14] + frame[14..18];
    CopyFromSlice(frame, 18, U16Be(32));
    frame[20], frame[21] := 58, 255;
    assert frame[..22] == frame[..20] + [58, 255];
    CopyFromSlice(frame, 22, src);
    CopyFromSlice(frame, 38, dst);
    assert frame[..54] == eth + [0x60, 0, 0, 0] + U16Be(32) + [58, 255] + src + dst;
    assert frame[..54] == eth + Ip6Header(32, src, dst);
    CopyFromSlice(frame, 54, icmp[..]);
    assert frame[..] == frame[..86];
  }

  /** The helper's checksum, copied over the zeroed field. */
  method SealByHelper(icmp: array<byte>, src: Ip6, dst: Ip6)
    requires icmp.Length == 32
    modifies icmp
    ensures icmp[..] == Sealed(src, dst, old(icmp[..]))
  {
    hide Checksum.Checksum;
    var csum := HelperChecksum(src, dst, icmp[..]);
    CopyFromSlice(icmp, 2, U16Be(csum));
    assert icmp[..] == icmp[..4] + icmp[4..];
  }

  /** A solicitation sent to the router alone. */
  method BuildProbeNs(en0Mac: Mac, routerMac: Mac, vmGua: Ip6, router: Ip6) returns (f: seq<byte>)
    ensures f == Framed(routerMac, en0Mac, vmGua, router, NeighbourMessage(135, 0, router, 1, en0Mac))
  {
    hide Sealed, NeighbourMessage, Ip6Header;
    var icmp := new byte[32](_ => 0);
    assert icmp[..] == Zeros(32);
    FillNeighbour(icmp, 135, 0, router, 1, en0Mac);
    SealByHelper(icmp, vmGua, router);
    var frame := new byte[86](_ => 0);
    assert frame[..] == Zeros(86);
    FillFrame(frame, routerMac, en0Mac, vmGua, router, icmp);
    return frame[..];
  }

  /** An unsolicited advertisement to all nodes. */
  method BuildGratuitousNa(en0Mac: Mac, vmGua: Ip6) returns (f: seq<byte>)
    ensures f == Framed(ALL_NODES_MAC, en0Mac, vmGua, ALL_NODES_IP6, NeighbourMessage(136, 0x20, vmGua, 2, en0Mac))
  {
    hide Sealed, NeighbourMessage, Ip6Header;
    var icmp := new byte[32](_ => 0);
    assert icmp[..] == Zeros(32);
    FillNeighbour(icmp, 136, 0x20, vmGua, 2, en0Mac);
    SealByHelper(icmp, vmGua, ALL_NODES_IP6);
    var frame := new byte[86](_ => 0);
    assert frame[..] == Zeros(86);
    FillFrame(frame, ALL_NODES_MAC, en0Mac, vmGua, ALL_NODES_IP6, icmp);
    return frame[..];
  }

  // ---- Every frame is accepted -----------------------------------------------------------

  /** The advertisement passes section 6.1.2 of RFC 4861, and announces the prefix for address
      configuration with the gateway as link-layer source. */
  lemma RaIsAccepted(prefix: Ip6)
    ensures var f := Framed(ALL_NODES_MAC, GATEWAY_MAC, GATEWAY_IP6_LL, ALL_NODES_IP6, RaMessage(prefix));
            && NdpFrame(f, ALL_NODES_MAC, GATEWAY_MAC, GATEWAY_IP6_LL, ALL_NODES_IP6)
            && ValidRa(GATEWAY_IP6_LL, ALL_NODES_IP6, f[54..])
            && ReadRaHead(f[54..]) == RaInfo(64, false, false, 1800)
            && Options(f[54..][16..]) == Some([NdpOption(3, PrefixOption(prefix)), NdpOption(1, GATEWAY_MAC)])
  {
    hide Sealed, RaMessage, Framed, Accepts, PrefixOption, Options;
    RaHeadIsRead(prefix, GATEWAY_IP6_LL, ALL_NODES_IP6);
    FramedIsAccepted(ALL_NODES_MAC, GATEWAY_MAC, GATEWAY_IP6_LL, ALL_NODES_IP6, RaMessage(prefix));
    RaOptions(prefix, GATEWAY_IP6_LL, ALL_NODES_IP6);
  }

  /** The gateway's advertisement claims to be solicited and goes to the source of the solicitation,
      so a receiver lets it pass exactly when that was neither multicast nor unspecified. */
  lemma NaIsAccepted(vmMac: Mac, target: Ip6, dst: Ip6)
    requires !Multicast(target)
    ensures var f := Framed(vmMac, GATEWAY_MAC, target, dst, NeighbourMessage(136, 0x60, target, 2, GATEWAY_MAC));
            && NdpFrame(f, vmMac, GATEWAY_MAC, target, dst)
            && (ValidNa(target, dst, f[54..]) <==> !Multicast(dst) && dst != UNSPECIFIED)
            && SaysSolicited(f[54..]) && SaysOverride(f[54..])
            && f[54..][8..24] == target && Options(f[54..][24..]) == Some([NdpOption(2, GATEWAY_MAC)])
  {
    hide Sealed, NeighbourMessage, Framed, Accepts, Options;
    FramedIsAccepted(vmMac, GATEWAY_MAC, target, dst, NeighbourMessage(136, 0x60, target, 2, GATEWAY_MAC));
    NeighbourOptions(136, 0x60, target, 2, GATEWAY_MAC, target, dst);
  }

  /** The unsolicited advertisement passes for every address that is not multicast. */
  lemma GratuitousNaIsAccepted(en0Mac: Mac, vmGua: Ip6)
    ensures var f := Framed(ALL_NODES_MAC, en0Mac, vmGua, ALL_NODES_IP6, NeighbourMessage(136, 0x20, vmGua, 2, en0Mac));
            && NdpFrame(f, ALL_NODES_MAC, en0Mac, vmGua, ALL_NODES_IP6)
            && (ValidNa(vmGua, ALL_NODES_IP6, f[54..]) <==> !Multicast(vmGua))
            && !SaysSolicited(f[54..]) && SaysOverride(f[54..])
            && f[54..][8..24] == vmGua && Options(f[54..][24..]) == Some([NdpOption(2, en0Mac)])
  {
    hide Sealed, NeighbourMessage, Framed, Accepts, Options;
    FramedIsAccepted(ALL_NODES_MAC, en0Mac, vmGua, ALL_NODES_IP6, NeighbourMessage(136, 0x20, vmGua, 2, en0Mac));
    NeighbourOptions(136, 0x20, vmGua, 2, en0Mac, vmGua, ALL_NODES_IP6);
  }

  /** The probe tells its sender's link-layer address, so it passes exactly between two addresses that
      are neither multicast nor unspecified. */
  lemma ProbeNsIsAccepted(en0Mac: Mac, routerMac: Mac, vmGua: Ip6, router: Ip6)
    ensures var f := Framed(routerMac, en0Mac, vmGua, router, NeighbourMessage(135, 0, router, 1, en0Mac));
            && NdpFrame(f, routerMac, en0Mac, vmGua, router)
            && (ValidNs(vmGua, router, f[54..])
                <==> !Multicast(router) && router != UNSPECIFIED && !Multicast(vmGua) && vmGua != UNSPECIFIED)
            && f[54..][8..24] == router && Options(f[54..][24..]) == Some([NdpOption(1, en0Mac)])
  {
    hide Sealed, NeighbourMessage, Framed, Accepts, Options;
    FramedIsAccepted(routerMac, en0Mac, vmGua, router, NeighbourMessage(135, 0, router, 1, en0Mac));
    NeighbourOptions(135, 0, router, 1, en0Mac, vmGua, router);
  }

  // ---- A probe for a duplicate of the gateway's address ----------------------------------

  const SOLICITED_MAC: Mac := [0x33, 0x33, 0xFF, 0x00, 0x00, 0x01]
  const SOLICITED_IP6: Ip6 := [0xFF, 0x02, 0, 0, 0, 0, 0, 0, 0, 0, 0, 1, 0xFF, 0, 0, 1]

  /** What a host sends that is about to take the gateway's address: section 5.4.2 of RFC 4862. */
  function DuplicateProbe(mac: Mac): seq<byte> {
    Framed(SOLICITED_MAC, mac, UNSPECIFIED, SOLICITED_IP6, [135, 0, 0, 0, 0, 0, 0, 0] + GATEWAY_IP6_LL)
  }

  lemma DuplicateProbeIsValid(mac: Mac)
    ensures var f := DuplicateProbe(mac);
            && |f| == 78 && f[12..14] == [0x86, 0xDD] && f[20] == 58 && f[54] == 135
            && f[22..38] == UNSPECIFIED && f[62..78] == GATEWAY_IP6_LL
            && NdpFrame(f, SOLICITED_MAC, mac, UNSPECIFIED, SOLICITED_IP6)
            && ValidNs(UNSPECIFIED, SOLICITED_IP6, f[54..])
  {
    hide Sealed, Framed, Accepts;
    var f, m0 := DuplicateProbe(mac), [135, 0, 0, 0, 0, 0, 0, 0] + GATEWAY_IP6_LL;
    FramedIsAccepted(SOLICITED_MAC, mac, UNSPECIFIED, SOLICITED_IP6, m0);
    var m := Sealed(UNSPECIFIED, SOLICITED_IP6, m0);
    assert m[0] == m[..2][0] && m[1] == m[..2][1];
    assert m[8..24] == m[4..][4..20] == GATEWAY_IP6_LL;
    assert m[8] == m[8..24][0];
    assert m[24..] == [];
    assert f[62..78] == f[54..][8..24];
    assert f[54] == f[54..][0];
  }

  // ---- ARP -------------------------------------------------------------------------------

  datatype Arp = Arp(op: int, senderMac: Mac, senderIp: Ip4, targetMac: Mac, targetIp: Ip4)

  /** An ARP packet for IPv4 over Ethernet, as a receiver reads it. */
  function ReadArp(f: seq<byte>): Option<Arp> {
    if |f| < 42 || f[12..20] != [0x08, 0x06, 0, 1, 0x08, 0, 6, 4] then None
    else Some(Arp(FromU16Be(f[20], f[21]), f[22..28], f[28..32], f[32..38], f[38..42]))
  }

  method FillArpHeader(a: array<byte>, ghost eth: seq<byte>)
    requires a.Length == 42 && |eth| == 12 && a[..12] == eth
    modifies a
    ensures a[..22] == eth + [0x08, 0x06, 0, 1, 0x08, 0, 6, 4, 0, 2]
  {
    a[12], a[13], a[14], a[15], a[16] := 0x08, 0x06, 0x00, 0x01, 0x08;
    a[17], a[18], a[19], a[20], a[21] := 0x00, 6, 4, 0x00, 0x02;
    assert a[..22] == a[..12] + a[12..22];
  }

  method BuildArpReply(vmMac: Mac, vmIp: Ip4, gatewayIp: Ip4) returns (f: seq<byte>)
    ensures f == ArpReply(vmMac, vmIp, gatewayIp)
  {
    var a := new byte[42](_ => 0);
    CopyFromSlice(a, 0, vmMac);
    CopyFromSlice(a, 6, GATEWAY_MAC);
    FillArpHeader(a, vmMac + GATEWAY_MAC);
    CopyFromSlice(a, 22, GATEWAY_MAC);
    CopyFromSlice(a, 28, gatewayIp);
    CopyFromSlice(a, 32, vmMac);
    CopyFromSlice(a, 38, vmIp);
    assert a[..] == a[..42];
    return a[..];
  }

  function ArpReply(vmMac: Mac, vmIp: Ip4, gatewayIp: Ip4): (f: seq<byte>)
    ensures |f| == 42
  {
    vmMac + GATEWAY_MAC + [0x08, 0x06, 0, 1, 0x08, 0, 6, 4, 0, 2] + GATEWAY_MAC + gatewayIp + vmMac + vmIp
  }

  /** The reply tells the VM that the gateway's address belongs to the gateway's MAC. */
  lemma ArpReplyIsRead(vmMac: Mac, vmIp: Ip4, gatewayIp: Ip4)
    ensures var f := ArpReply(vmMac, vmIp, gatewayIp);
            f[..6] == vmMac && ReadArp(f) == Some(Arp(2, GATEWAY_MAC, gatewayIp, vmMac, vmIp))
  {
    var f := ArpReply(vmMac, vmIp, gatewayIp);
    assert f[12..20] == [0x08, 0x06, 0, 1, 0x08, 0, 6, 4];
    assert f[20] == 0 && f[21] == 2;
    assert f[22..28] == GATEWAY_MAC && f[28..32] == gatewayIp && f[32..38] == vmMac && f[38..42] == vmIp;
  }
}
