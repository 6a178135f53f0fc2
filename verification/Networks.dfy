/** IPv4 networks as the packet filter reads them: an address and a prefix length. */
module Networks {
  import opened Text
  import opened VmConf
  import opened Wrappers

  datatype Network = Network(addr: Ip, bits: nat)

  function ParseCidr(text: string): Option<Network> {
    if '/' !in text then None
    else match (ParseIp(Before(text, '/')), ParseUnsigned(After(text, '/'), 32))
      case (Some(addr), Some(bits)) => Some(Network(addr, bits))
      case _ => None
  }

  /** The address as a number of 32 bits. */
  function Number(ip: Ip): nat {
    0x100_0000 * ip.a + 0x1_0000 * ip.b + 0x100 * ip.c + ip.d
  }

  function Pow2(n: nat): (p: nat)
    ensures p > 0
  {
    if n == 0 then 1 else 2 * Pow2(n - 1)
  }

  /** The address has the network's leading bits. */
  predicate InNetwork(net: Network, ip: Ip) {
    net.bits <= 32 && Number(ip) / Pow2(32 - net.bits) == Number(net.addr) / Pow2(32 - net.bits)
  }

  predicate Covers(cidr: string, ip: Ip) {
    ParseCidr(cidr).Some? && InNetwork(ParseCidr(cidr).value, ip)
  }

  lemma HalvesAgree(x: nat, y: nat, p: nat)
    requires p > 0 && x / p == y / p
    ensures x / (2 * p) == y / (2 * p)
  {
    HalfOf(x, p);
    HalfOf(y, p);
  }

  lemma HalfOf(x: nat, p: nat)
    requires p > 0
    ensures x / (2 * p) == x / p / 2
  {
    var q := x / p;
    assert x == p * q + x % p;
    assert q == 2 * (q / 2) + q % 2;
    var r := p * (q % 2) + x % p;
    assert p * q == 2 * p * (q / 2) + p * (q % 2);
    assert 0 <= r < 2 * p by {
      if q % 2 == 0 {
        assert r == x % p;
      } else {
        assert r == p + x % p;
      }
    }
    QuotientIs(x, 2 * p, q / 2, r);
  }

  lemma QuotientIs(x: nat, p: nat, q: nat, r: nat)
    requires p > 0 && x == p * q + r && r < p
    ensures x / p == q
  {
    var d := x / p - q;
    assert x == p * (x / p) + x % p;
    assert p * d == r - x % p;
    OnlyZero(p, d);
  }

  lemma OnlyZero(p: int, d: int)
    requires p > 0 && -p < p * d < p
    ensures d == 0
  {
  }

  /** The shorter the prefix, the larger the network. */
  lemma {:induction false} ShorterIsLarger(addr: Ip, ip: Ip, bits: nat, longer: nat)
    requires bits <= longer <= 32 && InNetwork(Network(addr, longer), ip)
    ensures InNetwork(Network(addr, bits), ip)
    decreases longer - bits
  {
    if bits < longer {
      HalvesAgree(Number(ip), Number(addr), Pow2(32 - longer));
      hide Number;
      assert Pow2(32 - (longer - 1)) == 2 * Pow2(32 - longer);
      ShorterIsLarger(addr, ip, bits, longer - 1);
    }
  }

  /** All 32 bits leave one address, and none of them leaves all. */
  lemma WidestAndNarrowest(addr: Ip, ip: Ip)
    requires IsIp(addr) && IsIp(ip)
    ensures InNetwork(Network(addr, 32), ip) <==> ip == addr
    ensures InNetwork(Network(addr, 0), ip)
  {
    assert Pow2(0) == 1;
    Pow2Of32();
    SameNumber(addr, ip);
    assert Number(ip) < 0x1_0000_0000 && Number(addr) < 0x1_0000_0000;
  }

  lemma SameNumber(a: Ip, b: Ip)
    requires IsIp(a) && IsIp(b)
    ensures Number(a) == Number(b) <==> a == b
  {
    if Number(a) == Number(b) {
      LastByte(0x1_0000 * a.a + 0x100 * a.b + a.c, a.d, 0x1_0000 * b.a + 0x100 * b.b + b.c, b.d);
      LastByte(0x100 * a.a + a.b, a.c, 0x100 * b.a + b.b, b.c);
      LastByte(a.a, a.b, b.a, b.b);
    }
  }

  lemma LastByte(x: nat, d: nat, y: nat, e: nat)
    requires d < 0x100 && e < 0x100 && 0x100 * x + d == 0x100 * y + e
    ensures x == y && d == e
  {
  }

  lemma Pow2Of32()
    ensures Pow2(32) == 0x1_0000_0000
  {
    assert Pow2(8) == 0x100 by {
      assert Pow2(4) == 16;
    }
    assert Pow2(16) == 0x1_0000 by {
      assert Pow2(12) == 0x1000;
    }
    assert Pow2(24) == 0x100_0000 by {
      assert Pow2(20) == 0x10_0000;
    }
    assert Pow2(28) == 0x1000_0000;
  }

  datatype VmSubnet = VmSubnet(hostIp4: Ip, guestIp4: Ip, cidr: string)

  function FromGuestIp(guest: Ip): VmSubnet {
    VmSubnet(Ip(guest.a, guest.b, guest.c, 1), guest,
             Digits(guest.a) + ['.'] + (Digits(guest.b) + ['.'] + (Digits(guest.c) + ".0/24")))
  }

  /** The CIDR text of a guest reads as the 24 leading bits of its address. */
  lemma GuestCidr(guest: Ip)
    requires IsIp(guest)
    ensures ParseCidr(FromGuestIp(guest).cidr) == Some(Network(Ip(guest.a, guest.b, guest.c, 0), 24))
  {
    var net := Ip(guest.a, guest.b, guest.c, 0);
    var t := IpText(net);
    assert Digits(0) == "0";
    hide Digits;
    assert FromGuestIp(guest).cidr == t + ['/'] + "24" by {
      SameCidr(Digits(guest.a), Digits(guest.b), Digits(guest.c));
    }
    NoSlash(net);
    Splits(t, '/', "24");
    IpRoundTrip(net);
    TwentyFour();
    hide IpText, ParseIp, Before, ParseUnsigned;
  }

  lemma SameCidr(a: string, b: string, c: string)
    ensures a + ['.'] + (b + ['.'] + (c + ".0/24")) == a + ['.'] + (b + ['.'] + (c + ['.'] + "0")) + ['/'] + "24"
  {
  }

  lemma NoSlash(ip: Ip)
    ensures '/' !in IpText(ip)
  {
    assert '/' !in Digits(ip.a) && '/' !in Digits(ip.b) && '/' !in Digits(ip.c) && '/' !in Digits(ip.d);
    hide Digits;
  }

  lemma TwentyFour()
    ensures ParseUnsigned("24", 32) == Some(24)
  {
    var s := "24";
    assert s[..1] == "2" && s[1] == '4';
    assert "2"[..0] == "" && Value("2") == 2;
    assert Value(s) == 24;
  }

  lemma Upper24(ip: Ip)
    requires IsIp(ip)
    ensures Number(ip) / Pow2(8) == 0x1_0000 * ip.a + 0x100 * ip.b + ip.c
  {
    assert Pow2(8) == 256 by {
      assert Pow2(4) == 16;
    }
    assert Number(ip) == 256 * (0x1_0000 * ip.a + 0x100 * ip.b + ip.c) + ip.d;
  }

  /** A guest's network covers exactly the addresses that share its first three octets. */
  lemma GuestCovers(guest: Ip, ip: Ip)
    requires IsIp(guest) && IsIp(ip)
    ensures Covers(FromGuestIp(guest).cidr, ip) <==> guest.a == ip.a && guest.b == ip.b && guest.c == ip.c
  {
    GuestCidr(guest);
    Upper24(ip);
    Upper24(Ip(guest.a, guest.b, guest.c, 0));
    hide ParseCidr, FromGuestIp, Number, Pow2;
    SameOctets(guest, ip);
  }

  lemma SameOctets(g: Ip, h: Ip)
    requires IsIp(g) && IsIp(h)
    ensures 0x1_0000 * g.a + 0x100 * g.b + g.c == 0x1_0000 * h.a + 0x100 * h.b + h.c
            <==> g.a == h.a && g.b == h.b && g.c == h.c
  {
  }

  /** The host's end is the first address of the guest's network, and another one than the guest's
      unless the guest was given that. */
  lemma HostIsFirst(guest: Ip)
    requires IsIp(guest)
    ensures var s := FromGuestIp(guest);
            && s.guestIp4 == guest && IsIp(s.hostIp4) && s.hostIp4.d == 1
            && Covers(s.cidr, s.hostIp4) && Covers(s.cidr, s.guestIp4)
            && (s.hostIp4 == s.guestIp4 <==> guest.d == 1)
  {
    GuestCovers(guest, guest);
    GuestCovers(guest, FromGuestIp(guest).hostIp4);
    hide Covers;
  }

  /** Guests with different third octets have disjoint networks. */
  lemma NetworksDisjoint(g: Ip, h: Ip, ip: Ip)
    requires IsIp(g) && IsIp(h) && IsIp(ip) && g.c != h.c
    ensures !(Covers(FromGuestIp(g).cidr, ip) && Covers(FromGuestIp(h).cidr, ip))
  {
    GuestCovers(g, ip);
    GuestCovers(h, ip);
  }
}
