/** The relay between the VM's Ethernet frames and the host's utun interface: it learns the VM's
    MAC, answers ARP, Neighbour and Router Solicitations itself, and passes IP packets on. */
module TunRelay {
  import opened Bytes
  import opened Checksum
  import opened NdpFrames
  import opened Wrappers

  /** What the relay is started with. */
  datatype Net = Net(gatewayIp4: Ip4, guaPrefix: Option<Ip6>)

  const TUN_HDR_IPV4: seq<byte> := [0, 0, 0, 2]
  const TUN_HDR_IPV6: seq<byte> := [0, 0, 0, 30]

  // ---- What a frame from the VM is -------------------------------------------------------

  predicate HasType(f: seq<byte>, hi: byte, lo: byte) {
    |f| >= 14 && f[12] == hi && f[13] == lo
  }

  lemma TypeOf(f: seq<byte>)
    requires |f| >= 14
    ensures var t := FromU16Be(f[12], f[13]);
            && (HasType(f, 0x08, 0x06) <==> t == 0x0806)
            && (Ipv4(f) <==> t == 0x0800) && (Ipv6(f) <==> t == 0x86DD)
    ensures !Ipv6(f) ==> !AsksForGateway(f) && !RouterSolicitation(f)
    ensures forall net: Net :: ArpForGateway(net, f) ==> HasType(f, 0x08, 0x06)
  {
  }

  predicate Ipv4(f: seq<byte>) {
    HasType(f, 0x08, 0x00)
  }

  predicate Ipv6(f: seq<byte>) {
    HasType(f, 0x86, 0xDD)
  }

  predicate IcmpV6(f: seq<byte>, kind: byte) {
    Ipv6(f) && |f| > 54 && f[20] == 58 && f[54] == kind
  }

  predicate RouterSolicitation(f: seq<byte>) {
    IcmpV6(f, 133)
  }

  predicate AsksForGateway(f: seq<byte>) {
    IcmpV6(f, 135) && |f| >= 78 && (f[62..78] == GATEWAY_IP6_LL || f[62..78] == GATEWAY_IP6_ULA)
  }

  predicate ArpForGateway(net: Net, f: seq<byte>) {
    HasType(f, 0x08, 0x06) && |f| >= 42 && FromU16Be(f[20], f[21]) == 1 && f[38..42] == net.gatewayIp4
  }

  // ---- What becomes of it ----------------------------------------------------------------

  datatype Verdict = Dropped | Answered(frame: seq<byte>) | Forwarded(packet: seq<byte>)

  function Advertisement(prefix: Ip6): seq<byte> {
    Framed(ALL_NODES_MAC, GATEWAY_MAC, GATEWAY_IP6_LL, ALL_NODES_IP6, RaMessage(prefix))
  }

  function GatewayNa(mac: Mac, target: Ip6, dst: Ip6): seq<byte> {
    Framed(mac, GATEWAY_MAC, target, dst, NeighbourMessage(136, 0x60, target, 2, GATEWAY_MAC))
  }

  function Judge(net: Net, mac: Mac, f: seq<byte>): Verdict {
    if ArpForGateway(net, f) then Answered(ArpReply(mac, f[28..32], net.gatewayIp4))
    else if Ipv4(f) then Forwarded(TUN_HDR_IPV4 + f[14..])
    else if RouterSolicitation(f) then
      (match net.guaPrefix case None => Dropped case Some(p) => Answered(Advertisement(p)))
    else if AsksForGateway(f) then Answered(GatewayNa(mac, f[62..78], f[22..38]))
    else if Ipv6(f) then Forwarded(TUN_HDR_IPV6 + f[14..])
    else Dropped
  }

  function Source(f: seq<byte>): Mac
    requires |f| >= 14
  {
    f[6..12]
  }

  /** The MAC in use once the frame has been seen. */
  function Learned(mac: Option<Mac>, f: seq<byte>): Option<Mac> {
    if mac.None? && |f| >= 14 then Some(Source(f)) else mac
  }

  /** An address of the VM inside the advertised prefix, as the source of a packet. */
  predicate OwnAddress(net: Net, f: seq<byte>) {
    net.guaPrefix.Some? && |f| >= 38 && f[22..38] != UNSPECIFIED && f[22..38][..8] == net.guaPrefix.value[..8]
  }

  /** An alias is asked for with the first IPv6 packet that is passed on from such an address,
      and again until the helper daemon grants it. */
  predicate AsksAlias(net: Net, gua: Option<Ip6>, f: seq<byte>) {
    gua.None? && Ipv6(f) && !RouterSolicitation(f) && !AsksForGateway(f) && OwnAddress(net, f)
  }

  /** A packet from the host, as a frame for the VM. */
  function Inbound(mac: Option<Mac>, p: seq<byte>): Option<seq<byte>> {
    if |p| < 5 || mac.None? then None
    else if FromU32Be(p[..4]) == 2 then Some(mac.value + GATEWAY_MAC + [0x08, 0x00] + p[4..])
    else if FromU32Be(p[..4]) == 30 then Some(mac.value + GATEWAY_MAC + [0x86, 0xDD] + p[4..])
    else None
  }

  // ---- The relay over a whole run --------------------------------------------------------

  datatype Wakeup =
    | FromVm(frame: seq<byte>, granted: bool)     // granted: the helper daemon would say yes
    | FromHost(packet: seq<byte>)
    | RaTimer

  datatype World = World(vmMac: Option<Mac>, vmGua: Option<Ip6>,
                         toVm: seq<seq<byte>>, toHost: seq<seq<byte>>, aliases: seq<Ip6>)

  const START: World := World(None, None, [], [], [])

  function Optional<T>(o: Option<T>): seq<T> {
    match o case None => [] case Some(v) => [v]
  }

  function AfterFrame(net: Net, w: World, f: seq<byte>, granted: bool): World {
    var mac := Learned(w.vmMac, f);
    if mac.None? then w
    else
      var v := Judge(net, mac.value, f);
      var alias := AsksAlias(net, w.vmGua, f) && granted;
      World(mac,
            if alias then Some(f[22..38]) else w.vmGua,
            w.toVm + (if v.Answered? then [v.frame] else []),
            w.toHost + (if v.Forwarded? then [v.packet] else []),
            w.aliases + (if alias then [f[22..38]] else []))
  }

  function Step(net: Net, w: World, e: Wakeup): World {
    match e
    case FromVm(f, granted) => AfterFrame(net, w, f, granted)
    case FromHost(p) => w.(toVm := w.toVm + Optional(Inbound(w.vmMac, p)))
    case RaTimer => w.(toVm := w.toVm + if net.guaPrefix.Some? then [Advertisement(net.guaPrefix.value)] else [])
  }

  function Run(net: Net, es: seq<Wakeup>): World {
    if es == [] then START else Step(net, Run(net, es[..|es| - 1]), es[|es| - 1])
  }

  // ---- The implementation ----------------------------------------------------------------

  class RelayState {
    var vmMac: Option<Mac>
    const gatewayIp4: Ip4
    const guaPrefix: Option<Ip6>
    var vmGua: Option<Ip6>
    // The effects: frames handed to send(2), packets handed to write(2), whose failures are only
    // logged, and aliases granted.
    var toVm: seq<seq<byte>>
    var toHost: seq<seq<byte>>
    var aliases: seq<Ip6>

    ghost function Now(): World
      reads this
    {
      World(vmMac, vmGua, toVm, toHost, aliases)
    }

    ghost function Setting(): Net {
      Net(gatewayIp4, guaPrefix)
    }

    constructor (gatewayIp4: Ip4, guaPrefix: Option<Ip6>)
      ensures Now() == START && Setting() == Net(gatewayIp4, guaPrefix)
    {
      this.gatewayIp4, this.guaPrefix := gatewayIp4, guaPrefix;
      vmMac, vmGua := None, None;
      toVm, toHost, aliases := [], [], [];
    }

    method ProcessAvfFrame(frame: seq<byte>, granted: bool)
      modifies this
      ensures Now() == AfterFrame(Setting(), old(Now()), frame, granted)
    {
      if |frame| < 14 {
        return;
      }
      hide Advertisement, GatewayNa, ArpReply, OwnAddress, AsksForGateway, ArpForGateway, FromU16Be, IcmpV6;
      if vmMac.None? {
        vmMac := Some(frame[6..12]);
      }
      var ethertype := FromU16Be(frame[12], frame[13]);
      TypeOf(frame);
      hide HasType, Ipv4, Ipv6, RouterSolicitation;
      if ethertype == 0x0806 {
        HandleArp(frame);
      } else if ethertype == 0x0800 {
        ForwardToUtun(frame[14..], TUN_HDR_IPV4);
      } else if ethertype == 0x86DD {
        HandleIp6(frame, granted);
      }
    }

    /** The part of the dispatch for IPv6: control traffic for the gateway is consumed. */
    method HandleIp6(frame: seq<byte>, granted: bool)
      requires Ipv6(frame) && vmMac.Some?
      modifies this`toVm, this`toHost, this`vmGua, this`aliases
      ensures var v := Judge(Setting(), vmMac.value, frame);
              && toVm == old(toVm) + (if v.Answered? then [v.frame] else [])
              && toHost == old(toHost) + (if v.Forwarded? then [v.packet] else [])
      ensures var alias := AsksAlias(Setting(), old(vmGua), frame) && granted;
              && vmGua == (if alias then Some(frame[22..38]) else old(vmGua))
              && aliases == old(aliases) + (if alias then [frame[22..38]] else [])
    {
      hide Advertisement, GatewayNa, ArpReply, OwnAddress;
      if |frame| > 54 && frame[20] == 58 && frame[54] == 133 {
        HandleRs();
        return;
      }
      if |frame| > 54 && frame[20] == 58 && frame[54] == 135 {
        var consumed := HandleNdpNs(frame);
        if consumed {
          return;
        }
      }
      MaybeAssignGuaAlias(frame, granted);
      ForwardToUtun(frame[14..], TUN_HDR_IPV6);
    }

    method HandleArp(frame: seq<byte>)
      requires HasType(frame, 0x08, 0x06)
      modifies this`toVm
      ensures toVm == old(toVm) + if ArpForGateway(Setting(), frame)
                                  then [ArpReply(if vmMac.Some? then vmMac.value else frame[22..28],
                                                 frame[28..32], gatewayIp4)]
                                  else []
    {
      if |frame| < 42 {
        return;
      }
      var op := FromU16Be(frame[20], frame[21]);
      if op != 1 {
        return;
      }
      if frame[38..42] != gatewayIp4 {
        return;
      }
      var mac := if vmMac.Some? then vmMac.value else frame[22..28];
      var reply := BuildArpReply(mac, frame[28..32], gatewayIp4);
      SendToAvf(reply);
    }

    method HandleRs()
      modifies this`toVm
      ensures toVm == old(toVm) + if guaPrefix.Some? then [Advertisement(guaPrefix.value)] else []
    {
      if guaPrefix.None? {
        return;
      }
      var ra := BuildRa(guaPrefix.value);
      SendToAvf(ra);
    }

    method HandleNdpNs(frame: seq<byte>) returns (consumed: bool)
      requires IcmpV6(frame, 135)
      modifies this`toVm
      ensures consumed <==> AsksForGateway(frame) && vmMac.Some?
      ensures toVm == old(toVm) + if consumed then [GatewayNa(vmMac.value, frame[62..78], frame[22..38])] else []
    {
      if |frame| < 78 {
        return false;
      }
      var target := frame[62..78];
      if target != GATEWAY_IP6_LL && target != GATEWAY_IP6_ULA {
        return false;
      }
      if vmMac.None? {
        return false;
      }
      var na := BuildNdpNa(vmMac.value, target, frame[22..38]);
      SendToAvf(na);
      return true;
    }

    method MaybeAssignGuaAlias(frame: seq<byte>, granted: bool)
      modifies this`vmGua, this`aliases
      ensures var alias := old(vmGua).None? && OwnAddress(Setting(), frame) && granted;
              && vmGua == (if alias then Some(frame[22..38]) else old(vmGua))
              && aliases == old(aliases) + if alias then [frame[22..38]] else []
    {
      if vmGua.Some? || guaPrefix.None? || |frame| < 38 {
        return;
      }
      var src := frame[22..38];
      if src == UNSPECIFIED || src[..8] != guaPrefix.value[..8] {
        return;
      }
      if granted {
        aliases := aliases + [src];
        vmGua := Some(src);
      }
    }

    method ForwardToUtun(ipPacket: seq<byte>, tunHdr: seq<byte>)
      modifies this`toHost
      ensures toHost == old(toHost) + [tunHdr + ipPacket]
    {
      toHost := toHost + [tunHdr + ipPacket];
    }

    method SendToAvf(frame: seq<byte>)
      modifies this`toVm
      ensures toVm == old(toVm) + [frame]
    {
      toVm := toVm + [frame];
    }

    method ProcessUtunPacket(packet: seq<byte>)
      modifies this`toVm
      ensures toVm == old(toVm) + Optional(Inbound(vmMac, packet))
    {
      if |packet| < 5 {
        return;
      }
      if vmMac.None? {
        return;
      }
      var af := FromU32Be(packet[..4]);
      var ethertype: seq<byte>;
      if af == 2 {
        ethertype := [0x08, 0x00];
      } else if af == 30 {
        ethertype := [0x86, 0xDD];
      } else {
        return;
      }
      SendToAvf(vmMac.value + GATEWAY_MAC + ethertype + packet[4..]);
    }

    /** The relay loop: every interleaving of frames, packets and the advertisement timer. */
    method RunRelay(es: seq<Wakeup>)
      requires Now() == START
      modifies this
      ensures Now() == Run(Setting(), es)
    {
      hide AfterFrame, Inbound, Advertisement;
      for i := 0 to |es|
        invariant Now() == Run(Setting(), es[..i])
      {
        assert es[..i + 1][..i] == es[..i];
        match es[i] {
          case FromVm(f, granted) => ProcessAvfFrame(f, granted);
          case FromHost(p) => ProcessUtunPacket(p);
          case RaTimer => HandleRs();
        }
      }
      assert es[..|es|] == es;
    }
  }

  // ---- What holds over every run ---------------------------------------------------------

  /** The first frame from the VM that has an Ethernet header. */
  function FirstFrame(es: seq<Wakeup>): Option<seq<byte>> {
    if es == [] then None
    else if es[0].FromVm? && |es[0].frame| >= 14 then Some(es[0].frame)
    else FirstFrame(es[1..])
  }

  lemma {:induction false} FirstFrameSnoc(es: seq<Wakeup>, e: Wakeup)
    ensures FirstFrame(es + [e])
         == if FirstFrame(es).Some? then FirstFrame(es)
            else if e.FromVm? && |e.frame| >= 14 then Some(e.frame) else None
  {
    if es == [] {
      assert [e][1..] == [];
    } else {
      assert (es + [e])[1..] == es[1..] + [e];
      FirstFrameSnoc(es[1..], e);
    }
  }

  /** The VM's MAC is the source of the first such frame, for the rest of the run. */
  lemma {:induction false} MacIsFirstSource(net: Net, es: seq<Wakeup>)
    ensures FirstFrame(es).Some? ==> |FirstFrame(es).value| >= 14
    ensures Run(net, es).vmMac
         == match FirstFrame(es) case None => None case Some(f) => Some(Source(f))
  {
    if es != [] {
      var n := |es| - 1;
      assert es == es[..n] + [es[n]];
      MacIsFirstSource(net, es[..n]);
      FirstFrameSnoc(es[..n], es[n]);
    }
  }

  /** Every frame is answered, passed on or dropped, and which of these depends on the frame
      alone: whatever came before, the MAC that an answer needs is known by then. */
  lemma EachFrameOnce(net: Net, es: seq<Wakeup>, f: seq<byte>, granted: bool)
    ensures var w, w' := Run(net, es), Run(net, es + [FromVm(f, granted)]);
            var answered := || ArpForGateway(net, f) || AsksForGateway(f)
                            || (RouterSolicitation(f) && net.guaPrefix.Some?);
            var forwarded := Ipv4(f) || (Ipv6(f) && !RouterSolicitation(f) && !AsksForGateway(f));
            && !(answered && forwarded)
            && |w'.toVm| == |w.toVm| + (if answered then 1 else 0) && w.toVm <= w'.toVm
            && |w'.toHost| == |w.toHost| + (if forwarded then 1 else 0) && w.toHost <= w'.toHost
  {
    var es' := es + [FromVm(f, granted)];
    assert es'[..|es|] == es;
  }

  /** An IP packet that the host sends straight back returns to the VM with its type and payload
      unchanged: the two directions' framings are each other's inverse. */
  lemma PayloadCrossesUnchanged(net: Net, mac: Mac, f: seq<byte>)
    requires Judge(net, mac, f).Forwarded? && |f| > 14
    ensures var p := Judge(net, mac, f).packet;
            p[4..] == f[14..] && Inbound(Some(mac), p) == Some(mac + GATEWAY_MAC + f[12..])
  {
    var p := Judge(net, mac, f).packet;
    assert p[..4] == if Ipv4(f) then TUN_HDR_IPV4 else TUN_HDR_IPV6;
    assert p[4..] == f[14..];
    assert f[12..] == [f[12], f[13]] + f[14..];
    assert mac + GATEWAY_MAC + ([f[12], f[13]] + f[14..]) == mac + GATEWAY_MAC + [f[12], f[13]] + f[14..];
  }

  predicate InPrefix(net: Net, a: Ip6) {
    net.guaPrefix.Some? && a != UNSPECIFIED && a[..8] == net.guaPrefix.value[..8]
  }

  /** At most one alias is ever granted; it is the recorded address, in the advertised prefix. */
  lemma {:induction false} OneAlias(net: Net, es: seq<Wakeup>)
    ensures Run(net, es).aliases == Optional(Run(net, es).vmGua)
    ensures forall a <- Run(net, es).aliases :: InPrefix(net, a)
  {
    if es != [] {
      OneAlias(net, es[..|es| - 1]);
    }
  }

  /** Once recorded, the address stays. */
  lemma {:induction false} AliasStays(net: Net, es: seq<Wakeup>, more: seq<Wakeup>)
    requires Run(net, es).vmGua.Some?
    ensures Run(net, es + more).vmGua == Run(net, es).vmGua
  {
    if more == [] {
      assert es + more == es;
    } else {
      var n := |more| - 1;
      AliasStays(net, es, more[..n]);
      assert (es + more)[..|es + more| - 1] == es + more[..n];
    }
  }

  /** The answer `a` is what a receiver accepts: the ARP reply names the gateway and the asker, the
      router's advertisement is valid, and the neighbour's is exactly unless the solicitation came
      from a multicast or the unspecified address. */
  ghost predicate AcceptedFor(net: Net, mac: Mac, f: seq<byte>, a: seq<byte>) {
    if ArpForGateway(net, f) then ReadArp(a) == Some(Arp(2, GATEWAY_MAC, f[38..42], mac, f[28..32]))
    else if RouterSolicitation(f) then
      && NdpFrame(a, ALL_NODES_MAC, GATEWAY_MAC, GATEWAY_IP6_LL, ALL_NODES_IP6)
      && ValidRa(GATEWAY_IP6_LL, ALL_NODES_IP6, a[54..])
    else
      && AsksForGateway(f) && |a| == 86 && NdpFrame(a, mac, GATEWAY_MAC, f[62..78], f[22..38])
      && (ValidNa(f[62..78], f[22..38], a[54..]) <==> !Multicast(f[22..38]) && f[22..38] != UNSPECIFIED)
      && Options(a[54..][24..]) == Some([NdpOption(2, GATEWAY_MAC)])
  }

  lemma AnswersAreAccepted(net: Net, mac: Mac, f: seq<byte>)
    requires Judge(net, mac, f).Answered?
    ensures AcceptedFor(net, mac, f, Judge(net, mac, f).frame)
  {
    hide NdpFrame, ValidRa, ValidNa, Options, Framed, RaMessage, NeighbourMessage, ReadArp;
    if ArpForGateway(net, f) {
      ArpReplyIsRead(mac, f[28..32], net.gatewayIp4);
    } else if RouterSolicitation(f) {
      RaIsAccepted(net.guaPrefix.value);
    } else {
      NaIsAccepted(mac, f[62..78], f[22..38]);
    }
  }

  /** A receiver finds a valid advertisement with these addresses in the frame. */
  ghost predicate ReadsNa(f: seq<byte>, src: Ip6, dst: Ip6) {
    && |f| >= 58 && NdpFrame(f, f[..6], f[6..12], src, dst) && ValidNa(src, dst, f[54..])
  }

  lemma UnspecifiedIsUnread(f: seq<byte>, ethDst: Mac, ethSrc: Mac, from: Ip6)
    requires NdpFrame(f, ethDst, ethSrc, from, UNSPECIFIED)
    ensures forall src, dst :: !ReadsNa(f, src, dst)
  {
    hide Accepts;
  }

  lemma ProbeIsJudged(net: Net, mac: Mac, f: seq<byte>)
    requires |f| == 78 && f[12..14] == [0x86, 0xDD] && f[20] == 58 && f[54] == 135
    requires f[22..38] == UNSPECIFIED && f[62..78] == GATEWAY_IP6_LL
    ensures AsksForGateway(f) && Judge(net, mac, f) == Answered(GatewayNa(mac, GATEWAY_IP6_LL, UNSPECIFIED))
  {
    hide GatewayNa, Advertisement, ArpReply;
    assert f[12] == f[12..14][0] && f[13] == f[12..14][1];
  }

  lemma AllNodesWouldRead()
    ensures ReadsNa(Framed(ALL_NODES_MAC, GATEWAY_MAC, GATEWAY_IP6_LL, ALL_NODES_IP6,
                           NeighbourMessage(136, 0x20, GATEWAY_IP6_LL, 2, GATEWAY_MAC)),
                    GATEWAY_IP6_LL, ALL_NODES_IP6)
  {
    hide Framed, NeighbourMessage, Options, Accepts, ValidNa;
    GratuitousNaIsAccepted(GATEWAY_MAC, GATEWAY_IP6_LL);
  }

  /** A host that probes for a duplicate of the gateway's address sends a valid solicitation, and is
      answered as if it had a source: nobody takes the answer.  The advertisement to all nodes that
      section 7.2.4 of RFC 4861 asks for would have been valid. */
  lemma DuplicateProbeIsUnanswered(net: Net, mac: Mac)
    ensures var f := DuplicateProbe(mac);
            && AsksForGateway(f) && ValidNs(UNSPECIFIED, SOLICITED_IP6, f[54..])
            && Judge(net, mac, f) == Answered(GatewayNa(mac, GATEWAY_IP6_LL, UNSPECIFIED))
            && forall src, dst :: !ReadsNa(Judge(net, mac, f).frame, src, dst)
    ensures ReadsNa(Framed(ALL_NODES_MAC, GATEWAY_MAC, GATEWAY_IP6_LL, ALL_NODES_IP6,
                           NeighbourMessage(136, 0x20, GATEWAY_IP6_LL, 2, GATEWAY_MAC)),
                    GATEWAY_IP6_LL, ALL_NODES_IP6)
  {
    hide ValidNs, Options, Framed, NeighbourMessage, DuplicateProbe, ValidNa, NdpFrame, ReadsNa, Judge, AsksForGateway;
    DuplicateProbeIsValid(mac);
    ProbeIsJudged(net, mac, DuplicateProbe(mac));
    NaIsAccepted(mac, GATEWAY_IP6_LL, UNSPECIFIED);
    UnspecifiedIsUnread(GatewayNa(mac, GATEWAY_IP6_LL, UNSPECIFIED), mac, GATEWAY_MAC, GATEWAY_IP6_LL);
    AllNodesWouldRead();
  }

  // ---- What the VM sends, and what it gets -----------------------------------------------

  /** The timer sends exactly one advertisement, from which hosts learn the prefix, and changes nothing
      else; without a prefix it does nothing. */
  lemma TimerAdvertises(net: Net, es: seq<Wakeup>)
    ensures var w, w' := Run(net, es), Run(net, es + [RaTimer]);
            match net.guaPrefix
            case None => w' == w
            case Some(p) => exists a :: w' == w.(toVm := w.toVm + [a]) && Advertises(a, p)
  {
    hide Run, Step, Advertisement, Advertises;
    RunMore(net, es, RaTimer);
    TimerStep(net, Run(net, es));
    if net.guaPrefix.Some? {
      AdvertisementAdvertises(net.guaPrefix.value);
    }
  }

  lemma RunMore(net: Net, es: seq<Wakeup>, e: Wakeup)
    ensures Run(net, es + [e]) == Step(net, Run(net, es), e)
  {
    hide Step;
    assert (es + [e])[..|es|] == es;
  }

  lemma TimerStep(net: Net, w: World)
    ensures net.guaPrefix.None? ==> Step(net, w, RaTimer) == w
    ensures net.guaPrefix.Some? ==>
              Step(net, w, RaTimer) == w.(toVm := w.toVm + [Advertisement(net.guaPrefix.value)])
  {
    hide Advertisement;
    assert w.toVm + [] == w.toVm;
  }

  /** Every receiver takes the frame for a router's valid advertisement of the prefix. */
  ghost predicate Advertises(a: seq<byte>, prefix: Ip6) {
    && NdpFrame(a, ALL_NODES_MAC, GATEWAY_MAC, GATEWAY_IP6_LL, ALL_NODES_IP6)
    && |a| >= 70 && ValidRa(GATEWAY_IP6_LL, ALL_NODES_IP6, a[54..])
    && ReadRaHead(a[54..]) == RaInfo(64, false, false, 1800)
    && var options := Options(a[54..][16..]);
       && options.Some? && |options.value| == 2
       && options.value[0].kind == 3 && |options.value[0].body| == 30
       && ReadPrefix(options.value[0].body) == PrefixInfo(64, true, true, 86400, 14400, prefix)
       && options.value[1] == NdpOption(1, GATEWAY_MAC)
  }

  lemma AdvertisementAdvertises(prefix: Ip6)
    ensures Advertises(Advertisement(prefix), prefix)
  {
    RaIsAccepted(prefix);
    PrefixIsRead(prefix);
    hide NdpFrame, RaMessage, Framed, ValidRa, Options, PrefixOption, ReadPrefix, ReadRaHead;
  }

  /** A router solicitation, with or without options, is answered by the advertisement of the prefix. */
  lemma RouterIsFound(net: Net, mac: Mac, ethDst: Mac, src: Ip6, dst: Ip6, options: seq<byte>)
    requires |options| < 1000
    ensures var f := Framed(ethDst, mac, src, dst, [133, 0, 0, 0, 0, 0, 0, 0] + options);
            match net.guaPrefix
            case None => Judge(net, mac, f) == Dropped
            case Some(p) => Judge(net, mac, f).Answered? && Advertises(Judge(net, mac, f).frame, p)
  {
    var m := [133, 0, 0, 0, 0, 0, 0, 0] + options;
    var f := Framed(ethDst, mac, src, dst, m);
    ControlFrame(ethDst, mac, src, dst, m);
    RsIsJudged(net, mac, f);
    hide Framed, Judge, Advertisement, Advertises;
    if net.guaPrefix.Some? {
      AdvertisementAdvertises(net.guaPrefix.value);
    }
  }

  lemma RsIsJudged(net: Net, mac: Mac, f: seq<byte>)
    requires |f| > 54 && f[12] == 0x86 && f[13] == 0xDD && f[20] == 58 && f[54] == 133
    ensures Judge(net, mac, f)
         == match net.guaPrefix case None => Dropped case Some(p) => Answered(Advertisement(p))
  {
    hide GatewayNa, Advertisement, ArpReply;
  }

  /** Where a control message stands in its frame. */
  lemma ControlFrame(ethDst: Mac, mac: Mac, src: Ip6, dst: Ip6, m: seq<byte>)
    requires 4 <= |m| < TWO_16 && m[2] == m[3] == 0
    ensures var f := Framed(ethDst, mac, src, dst, m);
            && |f| == 54 + |m| && f[12] == 0x86 && f[13] == 0xDD && f[20] == 58 && f[54] == m[0]
            && f[6..12] == mac && f[22..38] == src && (|m| >= 24 ==> f[62..78] == m[8..24])
  {
    hide Sealed;
    var f := Framed(ethDst, mac, src, dst, m);
    var h, s := Ip6Header(|m|, src, dst), Sealed(src, dst, m);
    assert f[14..54] == h && f[20] == h[6];
    assert f[22..38] == h[8..24] == src;
    assert f[54..] == s && f[54] == s[0] == s[..2][0];
    if |m| >= 24 {
      assert f[62..78] == s[8..24] == s[4..][4..20] == m[4..][4..20];
    }
  }

  /** A solicitation for either of the gateway's addresses is answered, and its sender reads the
      gateway's link-layer address, exactly when it gave an address of its own. */
  lemma GatewayIsFound(net: Net, mac: Mac, ethDst: Mac, src: Ip6, dst: Ip6, target: Ip6)
    requires target == GATEWAY_IP6_LL || target == GATEWAY_IP6_ULA
    ensures var f := Framed(ethDst, mac, src, dst, NeighbourMessage(135, 0, target, 1, mac));
            && Judge(net, mac, f).Answered?
            && (ReadsNa(Judge(net, mac, f).frame, target, src) <==> !Multicast(src) && src != UNSPECIFIED)
  {
    var m := NeighbourMessage(135, 0, target, 1, mac);
    var f := Framed(ethDst, mac, src, dst, m);
    assert m[8..24] == target;
    ControlFrame(ethDst, mac, src, dst, m);
    SolicitationIsJudged(net, mac, f, src, target);
    hide Framed, NeighbourMessage, Judge;
    NaIsAccepted(mac, target, src);
    GatewayNaParts(mac, target, src);
    hide NdpFrame, ValidNa, Options;
  }

  lemma GatewayNaParts(mac: Mac, target: Ip6, src: Ip6)
    ensures var a := GatewayNa(mac, target, src); |a| == 86 && a[..6] == mac && a[6..12] == GATEWAY_MAC
  {
    hide Sealed;
  }

  lemma SolicitationIsJudged(net: Net, mac: Mac, f: seq<byte>, src: Ip6, target: Ip6)
    requires |f| == 86 && f[12] == 0x86 && f[13] == 0xDD && f[20] == 58 && f[54] == 135
    requires f[22..38] == src && f[62..78] == target && (target == GATEWAY_IP6_LL || target == GATEWAY_IP6_ULA)
    ensures Judge(net, mac, f) == Answered(GatewayNa(mac, target, src))
  {
    hide GatewayNa, Advertisement, ArpReply;
  }

  function ArpRequest(mac: Mac, ip: Ip4, target: Ip4): seq<byte> {
    [0xFF, 0xFF, 0xFF, 0xFF, 0xFF, 0xFF] + mac + [0x08, 0x06, 0, 1, 0x08, 0, 6, 4, 0, 1]
    + mac + ip + [0, 0, 0, 0, 0, 0] + target
  }

  /** Who asks for the gateway's IPv4 address, and only for that, is told the gateway's MAC. */
  lemma GatewayIsFoundByArp(net: Net, mac: Mac, ip: Ip4, target: Ip4)
    ensures var v := Judge(net, mac, ArpRequest(mac, ip, target));
            if target == net.gatewayIp4 then
              v.Answered? && v.frame[..6] == mac && ReadArp(v.frame) == Some(Arp(2, GATEWAY_MAC, target, mac, ip))
            else v == Dropped
  {
    hide GatewayNa, Advertisement, ArpReply, ReadArp;
    var f := ArpRequest(mac, ip, target);
    assert f[12] == 0x08 && f[13] == 0x06 && f[20] == 0 && f[21] == 1;
    assert f[28..32] == ip && f[38..42] == target;
    ArpReplyIsRead(mac, ip, net.gatewayIp4);
  }

  /** From the host, packets of the two families go to the VM, under their types; nothing else does, and
      nothing before the VM's MAC is known. */
  lemma InboundExactly(mac: Option<Mac>, p: seq<byte>)
    ensures Inbound(mac, p) ==
              if mac.None? || |p| < 5 then None
              else if p[..4] == TUN_HDR_IPV4 then Some(mac.value + GATEWAY_MAC + [0x08, 0x00] + p[4..])
              else if p[..4] == TUN_HDR_IPV6 then Some(mac.value + GATEWAY_MAC + [0x86, 0xDD] + p[4..])
              else None
  {
    if |p| >= 5 {
      FamilyIs(p[..4], 2);
      FamilyIs(p[..4], 30);
    }
    hide FromU32Be;
  }

  lemma FamilyIs(h: seq<byte>, family: byte)
    requires |h| == 4
    ensures FromU32Be(h) == family as int <==> h == [0, 0, 0, family]
  {
  }

  // ---- When the alias is taken -----------------------------------------------------------

  /** A packet that is passed on from an address in the prefix, and that the helper would alias. */
  predicate Claims(net: Net, e: Wakeup, a: Ip6) {
    && e.FromVm? && e.granted
    && Ipv6(e.frame) && !RouterSolicitation(e.frame) && !AsksForGateway(e.frame)
    && |e.frame| >= 38 && e.frame[22..38] == a && InPrefix(net, a)
  }

  ghost predicate FirstClaim(net: Net, es: seq<Wakeup>, k: nat, a: Ip6) {
    && k < |es| && Claims(net, es[k], a)
    && forall j, b :: 0 <= j < k ==> !Claims(net, es[j], b)
  }

  lemma ClaimsAlias(net: Net, w: World, e: Wakeup)
    ensures w.vmGua.Some? ==> Step(net, w, e).vmGua == w.vmGua
    ensures w.vmGua.None? && Step(net, w, e).vmGua.Some? ==> Claims(net, e, Step(net, w, e).vmGua.value)
    ensures forall a :: w.vmGua.None? && Claims(net, e, a) ==> Step(net, w, e).vmGua == Some(a)
  {
    hide Judge, RouterSolicitation, AsksForGateway, Inbound, Advertisement;
  }

  ghost predicate Unclaimed(net: Net, es: seq<Wakeup>) {
    forall j, a :: 0 <= j < |es| ==> !Claims(net, es[j], a)
  }

  /** In every run the alias is the source of the first packet that claims one, if there is any. */
  lemma {:induction false} AliasIsFirstClaim(net: Net, es: seq<Wakeup>)
    ensures Run(net, es).vmGua.None? <==> Unclaimed(net, es)
    ensures Run(net, es).vmGua.Some? ==> exists k: nat :: FirstClaim(net, es, k, Run(net, es).vmGua.value)
  {
    hide Claims, Step, Run, FirstClaim, Unclaimed;
    if es == [] {
      NoClaims(net);
    } else {
      var n := |es| - 1;
      var before, w := es[..n], Run(net, es[..n]);
      assert es == before + [es[n]];
      AliasIsFirstClaim(net, before);
      RunMore(net, before, es[n]);
      ClaimsAlias(net, w, es[n]);
      if w.vmGua.Some? {
        var k: nat :| FirstClaim(net, before, k, w.vmGua.value);
        FirstStays(net, before, es[n], k, w.vmGua.value);
      } else {
        FirstNow(net, before, es[n], Step(net, w, es[n]).vmGua);
      }
    }
  }

  lemma NoClaims(net: Net)
    ensures Unclaimed(net, []) && Run(net, []).vmGua.None?
  {
  }

  lemma FirstNow(net: Net, es: seq<Wakeup>, e: Wakeup, gua: Option<Ip6>)
    requires Unclaimed(net, es)
    requires gua.Some? ==> Claims(net, e, gua.value)
    requires forall a :: Claims(net, e, a) ==> gua == Some(a)
    ensures Unclaimed(net, es + [e]) <==> gua.None?
    ensures gua.Some? ==> FirstClaim(net, es + [e], |es|, gua.value)
  {
    hide Claims;
    assert (es + [e])[|es|] == e;
  }

  lemma FirstStays(net: Net, es: seq<Wakeup>, e: Wakeup, k: nat, a: Ip6)
    requires FirstClaim(net, es, k, a)
    ensures FirstClaim(net, es + [e], k, a) && !Unclaimed(net, es + [e])
  {
    hide Claims;
    assert (es + [e])[k] == es[k];
  }
}
