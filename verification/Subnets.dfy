/** One /24 for each VM profile: addresses are handed out once and kept in the profile's file. */
module Subnets {
  import opened Networks
  import opened Text
  import opened VmConf
  import opened Wrappers

  const DEFAULT := "default"
  const DEFAULT_GUEST_IP := Ip(192, 168, 105, 2)
  const FIRST: nat := 106
  const LAST: nat := 254

  /** The text of each profile's file; a profile without one reads as empty. */
  type Confs = map<string, string>

  function TextOf(confs: Confs, profile: string): string {
    if profile in confs then confs[profile] else ""
  }

  /** The address that a profile's file gives. */
  function IpOf(confs: Confs, profile: string): Option<Ip> {
    Load(TextOf(confs, profile)).vmIp
  }

  function OctetOf(confs: Confs, profile: string): set<nat> {
    match IpOf(confs, profile) case None => {} case Some(ip) => {ip.c}
  }

  /** Third octets of some profiles other than this one. */
  ghost predicate Used(confs: Confs, names: set<string>, profile: string, n: nat) {
    exists p <- names :: p != profile && n in OctetOf(confs, p)
  }

  function DefaultOctet(confs: Confs): nat {
    match IpOf(confs, DEFAULT) case None => 105 case Some(ip) => ip.c
  }

  /** Third octets in use: the default profile's, whether or not it has been written, and those
      of the other named profiles. */
  ghost predicate Taken(confs: Confs, profile: string, n: nat) {
    n == DefaultOctet(confs) || Used(confs, confs.Keys - {DEFAULT}, profile, n)
  }

  lemma NoneUsed(confs: Confs, profile: string)
    ensures forall n :: !Used(confs, {}, profile, n)
  {
  }

  lemma UsedMore(confs: Confs, names: set<string>, profile: string, name: string)
    ensures forall n :: Used(confs, names + {name}, profile, n)
                   <==> Used(confs, names, profile, n) || (name != profile && n in OctetOf(confs, name))
  {
    hide OctetOf;
  }

  /** The lowest free octet from n on. */
  ghost predicate Lowest(confs: Confs, profile: string, from: nat, n: nat) {
    from <= n <= LAST && !Taken(confs, profile, n) && forall m :: from <= m < n ==> Taken(confs, profile, m)
  }

  /** One call: an address that is there is returned; otherwise an octet is chosen, written and
      returned, or none is free. */
  ghost predicate Call(confs: Confs, profile: string, ip: Option<Ip>, confs': Confs) {
    if IpOf(confs, profile).Some? then ip == IpOf(confs, profile) && confs' == confs
    else
      && (profile == DEFAULT ==> ip == Some(DEFAULT_GUEST_IP))
      && (profile != DEFAULT ==>
            if ip.Some? then exists n :: ip == Some(Ip(192, 168, n, 2)) && Lowest(confs, profile, FIRST, n)
            else forall n :: FIRST <= n <= LAST ==> Taken(confs, profile, n))
      && confs' == if ip.None? then confs else confs[profile := Appended(TextOf(confs, profile), ip.value)]
  }

  class StateDir {
    var confs: Confs

    constructor ()
      ensures confs == map[]
    {
      confs := map[];
    }

    method AppendVmIpToConf(profile: string, ip: Ip)
      modifies this
      ensures confs == old(confs)[profile := Appended(TextOf(old(confs), profile), ip)]
    {
      confs := confs[profile := Appended(TextOf(confs, profile), ip)];
    }

    method CollectTaken(profile: string) returns (taken: set<nat>)
      ensures forall n :: n in taken <==> Taken(confs, profile, n)
    {
      hide IpOf, OctetOf, Used;
      taken := {DefaultOctet(confs)};
      var entries := confs.Keys - {DEFAULT};
      ghost var seen: set<string> := {};
      NoneUsed(confs, profile);
      while entries != {}
        invariant entries + seen == confs.Keys - {DEFAULT}
        invariant forall n :: n in taken <==> n == DefaultOctet(confs) || Used(confs, seen, profile, n)
        decreases |entries|
      {
        var pname :| pname in entries;
        UsedMore(confs, seen, profile, pname);
        entries := entries - {pname};
        seen := seen + {pname};
        if pname == profile {
          continue;
        }
        taken := taken + OctetOf(confs, pname);
      }
      assert seen == confs.Keys - {DEFAULT};
    }

    method EnsureVmIp(profile: string) returns (ip: Option<Ip>)
      modifies this
      ensures Call(old(confs), profile, ip, confs)
    {
      hide Load, Taken;
      var conf := LoadPath(TextOf(confs, profile));
      if conf.vmIp.Some? {
        return conf.vmIp;
      }
      if profile == DEFAULT {
        AppendVmIpToConf(profile, DEFAULT_GUEST_IP);
        return Some(DEFAULT_GUEST_IP);
      }
      var taken := CollectTaken(profile);
      for n := FIRST to LAST + 1
        invariant confs == old(confs)
        invariant forall m :: FIRST <= m < n ==> Taken(confs, profile, m)
      {
        if n !in taken {
          AppendVmIpToConf(profile, Ip(192, 168, n, 2));
          assert Lowest(old(confs), profile, FIRST, n);
          return Some(Ip(192, 168, n, 2));
        }
      }
      return None;
    }
  }

  // ---- Runs ------------------------------------------------------------------------------

  datatype Called = Called(profile: string, ip: Option<Ip>)

  /** The calls lead from each state of the directory to the next. */
  ghost predicate Calls(ss: seq<Confs>, calls: seq<Called>) {
    && |ss| == |calls| + 1
    && forall i :: 0 <= i < |calls| ==> Call(ss[i], calls[i].profile, calls[i].ip, ss[i + 1])
  }

  ghost predicate DistinctNets(confs: Confs) {
    forall p, q :: p != q && IpOf(confs, p).Some? && IpOf(confs, q).Some? ==>
      IpOf(confs, p).value.c != IpOf(confs, q).value.c
  }

  /** 105 is left to the default profile as long as that has no other. */
  ghost predicate Reserved(confs: Confs) {
    IpOf(confs, DEFAULT).None? ==> forall p :: IpOf(confs, p).Some? ==> IpOf(confs, p).value.c != 105
  }

  /** No two profiles clash to begin with. */
  ghost predicate Clear(confs: Confs) {
    DistinctNets(confs) && Reserved(confs)
  }

  /** The file of each named profile without an address ends in a finished line. */
  ghost predicate Finished(confs: Confs) {
    forall p <- confs.Keys :: p != DEFAULT && IpOf(confs, p).None? ==> Blank(Tail(confs[p]))
  }

  /** No subnet is left to give. */
  ghost predicate Full(confs: Confs) {
    forall n :: FIRST <= n <= LAST ==> n == DefaultOctet(confs) || HeldByNamed(confs, n)
  }

  ghost predicate HeldByNamed(confs: Confs, n: nat) {
    exists p <- confs.Keys :: p != DEFAULT && n in OctetOf(confs, p)
  }

  ghost predicate Good(confs: Confs) {
    Clear(confs) && (Finished(confs) || Full(confs))
  }

  /** Every run from a directory where appended addresses are found again. */
  ghost predicate Run(ss: seq<Confs>, calls: seq<Called>) {
    Calls(ss, calls) && Good(ss[0])
  }

  lemma EmptyIsGood()
    ensures Good(map[])
  {
    assert Load("") == EMPTY;
  }

  lemma AppendedTail(text: string, ip: Ip)
    ensures Tail(Appended(text, ip)) == ""
  {
    LastLineEnds(text + Entry(ip));
  }

  lemma {:induction false} LastLineEnds(s: string)
    ensures Tail(s + "\n") == ""
    decreases |s|
  {
    var t := s + "\n";
    if '\n' in s {
      var a, b := Before(s, '\n'), After(s, '\n');
      assert t == a + ['\n'] + (b + "\n");
      Splits(a, '\n', b + "\n");
      LastLineEnds(b);
    } else {
      assert t == s + ['\n'] + "";
      Splits(s, '\n', "");
    }
  }

  lemma NothingIsBlank()
    ensures Tail("") == "" && Blank("")
  {
  }

  lemma NothingLoaded()
    ensures Load("") == EMPTY
  {
  }

  lemma IpAfterWrite(confs: Confs, profile: string, text: string)
    ensures var confs' := confs[profile := text];
            IpOf(confs', profile) == Load(text).vmIp && forall p :: p != profile ==> IpOf(confs', p) == IpOf(confs, p)
  {
    hide Load;
  }

  /** After a call that wrote, no other profile's address has changed; the one returned is read back
      exactly when the file ended in a finished line. */
  lemma Written(confs: Confs, profile: string, ip: Ip)
    requires IpOf(confs, profile).None? && IsIp(ip)
    ensures var confs' := confs[profile := Appended(TextOf(confs, profile), ip)];
            && IpOf(confs', profile) == (if Blank(Tail(TextOf(confs, profile))) then Some(ip) else None)
            && forall p :: p != profile ==> IpOf(confs', p) == IpOf(confs, p)
  {
    hide Load, Tail, Blank, Appended, IpOf, TextOf;
    var text := TextOf(confs, profile);
    IpIsLoaded(confs, profile);
    AppendedIsFound(text, ip);
    IpAfterWrite(confs, profile, Appended(text, ip));
  }

  lemma IpIsLoaded(confs: Confs, profile: string)
    ensures IpOf(confs, profile) == Load(TextOf(confs, profile)).vmIp
  {
    hide Load, TextOf;
  }

  /** Files stay finished. */
  lemma StaysFinished(confs: Confs, profile: string, ip: Ip)
    requires Finished(confs) && IpOf(confs, profile).None? && IsIp(ip)
    ensures Finished(confs[profile := Appended(TextOf(confs, profile), ip)])
  {
    hide Tail, Blank, Appended, IpOf, Load, TextOf, Finished;
    var text := Appended(TextOf(confs, profile), ip);
    AppendedTail(TextOf(confs, profile), ip);
    NothingIsBlank();
    IpAfterWrite(confs, profile, text);
    OneMoreFinished(confs, profile, text);
  }

  lemma OneMoreFinished(confs: Confs, profile: string, text: string)
    requires Finished(confs) && Blank(Tail(text))
    requires forall p :: p != profile ==> IpOf(confs[profile := text], p) == IpOf(confs, p)
    ensures Finished(confs[profile := text])
  {
    hide Tail, Blank, IpOf;
    var confs' := confs[profile := text];
    forall p | p in confs'.Keys && p != DEFAULT && IpOf(confs', p).None?
      ensures Blank(Tail(confs'[p]))
    {
      if p != profile {
        assert p in confs.Keys && confs'[p] == confs[p];
      }
    }
  }

  lemma HasFile(confs: Confs, p: string)
    requires IpOf(confs, p).Some?
    ensures p in confs && IpOf(confs, p).value.c in OctetOf(confs, p)
  {
    if p !in confs {
      NothingLoaded();
    }
    hide Load;
  }

  lemma NewOctetIsFree(confs: Confs, profile: string, n: nat, p: string)
    requires Lowest(confs, profile, FIRST, n) && p != profile && IpOf(confs, p).Some?
    ensures IpOf(confs, p).value.c != n
  {
    HasFile(confs, p);
    hide Load, IpOf, OctetOf;
    assert p == DEFAULT ==> DefaultOctet(confs) == IpOf(confs, p).value.c;
  }

  /** For a profile without an address the octets taken are those held by anyone. */
  lemma TakenByAny(confs: Confs, profile: string, n: nat)
    requires IpOf(confs, profile).None?
    ensures Taken(confs, profile, n) <==> n == DefaultOctet(confs) || HeldByNamed(confs, n)
  {
    hide Load, DefaultOctet;
    if HeldByNamed(confs, n) {
      var p :| p in confs.Keys && p != DEFAULT && n in OctetOf(confs, p);
      assert p in confs.Keys - {DEFAULT};
    }
  }

  /** A call that writes takes a net that nobody else has. */
  lemma NetIsNew(confs: Confs, profile: string, ip: Ip, confs': Confs)
    requires Reserved(confs) && Call(confs, profile, Some(ip), confs') && IpOf(confs, profile).None?
    ensures IsIp(ip) && (profile != DEFAULT ==> ip.c != 105 && !Full(confs))
    ensures forall p :: p != profile && IpOf(confs, p).Some? ==> IpOf(confs, p).value.c != ip.c
  {
    hide Load, Taken, Tail, Blank, Appended, IpOf, DefaultOctet, HeldByNamed;
    if profile != DEFAULT {
      TakenByAny(confs, profile, ip.c);
      forall p | p != profile && IpOf(confs, p).Some?
        ensures IpOf(confs, p).value.c != ip.c
      {
        NewOctetIsFree(confs, profile, ip.c, p);
      }
    }
  }

  /** The address given to a profile: its file has it, or it is the default profile's, which needs
      no file. */
  ghost predicate Holds(confs: Confs, profile: string, ip: Ip) {
    || IpOf(confs, profile) == Some(ip)
    || (profile == DEFAULT && ip == DEFAULT_GUEST_IP && IpOf(confs, profile).None?)
  }

  lemma WriteKeepsClear(confs: Confs, profile: string, ip: Ip, confs': Confs)
    requires Clear(confs) && IpOf(confs, profile).None?
    requires forall p :: p != profile ==> IpOf(confs', p) == IpOf(confs, p)
    requires IpOf(confs', profile) == Some(ip) || (profile == DEFAULT && IpOf(confs', profile).None?)
    requires profile == DEFAULT || ip.c != 105
    requires forall p :: p != profile && IpOf(confs, p).Some? ==> IpOf(confs, p).value.c != ip.c
    ensures Clear(confs')
  {
    hide IpOf;
  }

  lemma WriteKeepsGood(confs: Confs, profile: string, ip: Ip, confs': Confs)
    requires Good(confs) && Call(confs, profile, Some(ip), confs') && IpOf(confs, profile).None?
    ensures Good(confs') && Holds(confs', profile, ip)
    ensures forall p :: p != profile ==> IpOf(confs', p) == IpOf(confs, p)
  {
    hide Load, Lowest, Taken, Appended, IpOf, Finished, Full, Tail, Blank, DistinctNets, Reserved;
    NetIsNew(confs, profile, ip, confs');
    Written(confs, profile, ip);
    if profile != DEFAULT {
      FinishedTail(confs, profile);
    }
    WriteKeepsClear(confs, profile, ip, confs');
    if Finished(confs) {
      StaysFinished(confs, profile, ip);
    } else {
      StaysFull(confs, confs');
    }
  }

  lemma FinishedTail(confs: Confs, profile: string)
    requires Finished(confs) && IpOf(confs, profile).None? && profile != DEFAULT
    ensures Blank(Tail(TextOf(confs, profile)))
  {
    NothingIsBlank();
    hide Tail, Blank, IpOf, Load;
  }

  lemma StaysFull(confs: Confs, confs': Confs)
    requires Full(confs) && confs.Keys <= confs'.Keys && IpOf(confs, DEFAULT).None?
    requires forall p :: p != DEFAULT ==> IpOf(confs', p) == IpOf(confs, p)
    requires IpOf(confs', DEFAULT).None? || IpOf(confs', DEFAULT) == Some(DEFAULT_GUEST_IP)
    ensures Full(confs')
  {
    hide IpOf;
    forall n | FIRST <= n <= LAST
      ensures HeldByNamed(confs', n)
    {
      assert HeldByNamed(confs, n);
      var p :| p in confs.Keys && p != DEFAULT && n in OctetOf(confs, p);
      assert p in confs'.Keys && n in OctetOf(confs', p);
    }
  }

  lemma CallKeepsGood(confs: Confs, profile: string, ip: Option<Ip>, confs': Confs)
    requires Good(confs) && Call(confs, profile, ip, confs')
    ensures Good(confs')
    ensures ip.Some? ==> Holds(confs', profile, ip.value)
    ensures forall p, held :: Holds(confs, p, held) ==> Holds(confs', p, held)
  {
    hide Load, Lowest, Taken, Appended, IpOf, Good;
    if IpOf(confs, profile).None? && ip.Some? {
      WriteKeepsGood(confs, profile, ip.value, confs');
    }
  }

  lemma {:induction false} RunKeepsGood(ss: seq<Confs>, calls: seq<Called>, i: nat, j: nat)
    requires Run(ss, calls) && i <= j <= |calls|
    ensures Good(ss[j])
    ensures forall p, held :: Holds(ss[i], p, held) ==> Holds(ss[j], p, held)
    decreases j
  {
    hide Call, Good, Holds;
    if j > 0 {
      RunKeepsGood(ss, calls, if i < j then i else j - 1, j - 1);
      CallKeepsGood(ss[j - 1], calls[j - 1].profile, calls[j - 1].ip, ss[j]);
    }
  }

  lemma CallGives(ss: seq<Confs>, calls: seq<Called>, i: nat, j: nat)
    requires Run(ss, calls) && i < j <= |calls| && calls[i].ip.Some?
    ensures Good(ss[j]) && Holds(ss[j], calls[i].profile, calls[i].ip.value)
  {
    hide Call, Good, Holds;
    RunKeepsGood(ss, calls, i, i);
    CallKeepsGood(ss[i], calls[i].profile, calls[i].ip, ss[i + 1]);
    RunKeepsGood(ss, calls, i + 1, j);
  }

  /** Any two profiles that have been given addresses have different /24s. */
  lemma SubnetsAreDistinct(ss: seq<Confs>, calls: seq<Called>, i: nat, j: nat)
    requires Run(ss, calls) && i < |calls| && j < |calls| && calls[i].profile != calls[j].profile
    requires calls[i].ip.Some? && calls[j].ip.Some?
    ensures calls[i].ip.value.c != calls[j].ip.value.c
  {
    CallGives(ss, calls, i, |calls|);
    CallGives(ss, calls, j, |calls|);
    hide IpOf, Finished, Full, Call;
  }

  /** A profile gets the same address from every later call, whatever the others do. */
  lemma AddressIsStable(ss: seq<Confs>, calls: seq<Called>, i: nat, j: nat)
    requires Run(ss, calls) && i < j < |calls|
    requires calls[i].ip.Some? && calls[j].profile == calls[i].profile
    ensures calls[j].ip == calls[i].ip
  {
    CallGives(ss, calls, i, j);
    HolderAgain(ss[j], calls[j].profile, calls[i].ip.value, calls[j].ip, ss[j + 1]);
    hide Call, Good, Holds;
  }

  lemma HolderAgain(confs: Confs, profile: string, held: Ip, ip: Option<Ip>, confs': Confs)
    requires Call(confs, profile, ip, confs') && Holds(confs, profile, held)
    ensures ip == Some(held)
  {
    hide IpOf, Lowest, Taken;
  }

  // ---- Exactly when addresses are kept apart ---------------------------------------------

  /** No run gives two profiles the same /24, or a profile two addresses. */
  ghost predicate NeverClashes(confs: Confs) {
    forall ss, calls :: Calls(ss, calls) && ss[0] == confs ==> KeptApart(calls)
  }

  ghost predicate KeptApart(calls: seq<Called>) {
    forall i, j :: 0 <= i < j < |calls| && calls[i].ip.Some? && calls[j].ip.Some? ==>
      && (calls[i].profile != calls[j].profile ==> calls[i].ip.value.c != calls[j].ip.value.c)
      && (calls[i].profile == calls[j].profile ==> calls[i].ip == calls[j].ip)
  }

  /** A file with an unfinished line: its profile and the next are given the same subnet. */
  lemma UnfinishedClashes(confs: Confs, p: string, q: string, n: nat) returns (ss: seq<Confs>, calls: seq<Called>)
    requires p in confs && p != DEFAULT && IpOf(confs, p).None? && !Blank(Tail(confs[p]))
    requires q != p && q != DEFAULT && IpOf(confs, q).None?
    requires Lowest(confs, p, FIRST, n)
    ensures Calls(ss, calls) && ss[0] == confs
    ensures calls == [Called(p, Some(Ip(192, 168, n, 2))), Called(q, Some(Ip(192, 168, n, 2)))]
  {
    hide Load, Tail, Blank, Appended, IpOf, TextOf, Lowest, Calls, Call;
    var ip := Ip(192, 168, n, 2);
    var c1 := confs[p := Appended(TextOf(confs, p), ip)];
    var c2 := c1[q := Appended(TextOf(c1, q), ip)];
    TextIs(confs, p);
    CallWrites(confs, p, n);
    Written(confs, p, ip);
    SameLowest(confs, p, c1, q, n);
    CallWrites(c1, q, n);
    TwoCalls(confs, c1, c2, Called(p, Some(ip)), Called(q, Some(ip)));
    ss, calls := [confs, c1, c2], [Called(p, Some(ip)), Called(q, Some(ip))];
  }

  lemma CallWrites(confs: Confs, p: string, n: nat)
    requires p != DEFAULT && IpOf(confs, p).None? && Lowest(confs, p, FIRST, n)
    ensures var ip := Ip(192, 168, n, 2);
            IsIp(ip) && Call(confs, p, Some(ip), confs[p := Appended(TextOf(confs, p), ip)])
  {
    hide IpOf, TextOf, Appended, Taken;
  }

  lemma SameLowest(confs: Confs, p: string, c1: Confs, q: string, n: nat)
    requires c1.Keys == confs.Keys && forall r :: IpOf(c1, r) == IpOf(confs, r)
    requires IpOf(confs, p).None? && IpOf(confs, q).None? && Lowest(confs, p, FIRST, n)
    ensures Lowest(c1, q, FIRST, n)
  {
    hide IpOf, Taken;
    forall m
      ensures Taken(c1, q, m) <==> Taken(confs, p, m)
    {
      SameTaken(confs, p, c1, q, m);
    }
  }

  lemma TwoCalls(c0: Confs, c1: Confs, c2: Confs, a: Called, b: Called)
    requires Call(c0, a.profile, a.ip, c1) && Call(c1, b.profile, b.ip, c2)
    ensures Calls([c0, c1, c2], [a, b])
  {
    hide Call;
  }

  lemma TextIs(confs: Confs, p: string)
    requires p in confs
    ensures TextOf(confs, p) == confs[p]
  {
  }

  lemma SameTaken(confs: Confs, p: string, confs': Confs, q: string, m: nat)
    requires confs'.Keys == confs.Keys && forall r :: IpOf(confs', r) == IpOf(confs, r)
    requires IpOf(confs, p).None? && IpOf(confs, q).None?
    ensures Taken(confs', q, m) <==> Taken(confs, p, m)
  {
    TakenByAny(confs, p, m);
    TakenByAny(confs', q, m);
    hide IpOf, Taken;
    assert forall r :: OctetOf(confs', r) == OctetOf(confs, r);
  }

  lemma FreshName(names: set<string>) returns (q: string)
    ensures q !in names && |q| > 7 && forall p <- names :: |p| < |q|
  {
    if names == {} {
      q := "profile0";
    } else {
      var p :| p in names;
      q := FreshName(names - {p});
      assert names == names - {p} + {p};
      if |p| >= |q| {
        q := p + "0";
      }
    }
  }

  lemma LowestFree(confs: Confs, profile: string, from: nat) returns (n: nat)
    requires from <= LAST + 1 && exists m :: from <= m <= LAST && !Taken(confs, profile, m)
    ensures Lowest(confs, profile, from, n)
    decreases LAST + 1 - from
  {
    hide Taken;
    if !Taken(confs, profile, from) {
      n := from;
    } else {
      n := LowestFree(confs, profile, from + 1);
    }
  }

  lemma NotFullHasFree(confs: Confs, p: string) returns (n: nat)
    requires !Full(confs) && IpOf(confs, p).None?
    ensures Lowest(confs, p, FIRST, n)
  {
    hide IpOf, HeldByNamed, DefaultOctet, Taken;
    var m: nat :| FIRST <= m <= LAST && !(m == DefaultOctet(confs) || HeldByNamed(confs, m));
    TakenByAny(confs, p, m);
    n := LowestFree(confs, p, FIRST);
  }

  /** From a directory where nobody clashes yet, every run keeps addresses apart and stable if and
      only if the files of the named profiles that have no address end in finished lines, or there
      is no subnet left to give. */
  lemma KeptApartExactly(confs: Confs)
    requires Clear(confs)
    ensures NeverClashes(confs) <==> Finished(confs) || Full(confs)
  {
    if Finished(confs) || Full(confs) {
      forall ss, calls | Calls(ss, calls) && ss[0] == confs
        ensures KeptApart(calls)
      {
        RunKeepsApart(ss, calls);
      }
    } else {
      var p :| p in confs.Keys && p != DEFAULT && IpOf(confs, p).None? && !Blank(Tail(confs[p]));
      hide Load, Tail, Blank, IpOf, Full, Finished, Clear;
      var q := FreshName(confs.Keys + {DEFAULT, p});
      NoAddress(confs, q);
      var n := NotFullHasFree(confs, p);
      var ss, calls := UnfinishedClashes(confs, p, q, n);
      assert !KeptApart(calls) by {
        assert calls[0].profile != calls[1].profile && calls[0].ip.value.c == calls[1].ip.value.c;
      }
    }
  }

  lemma NoAddress(confs: Confs, q: string)
    requires q !in confs
    ensures IpOf(confs, q).None?
  {
    NothingLoaded();
  }

  lemma RunKeepsApart(ss: seq<Confs>, calls: seq<Called>)
    requires Run(ss, calls)
    ensures KeptApart(calls)
  {
    hide Good, Call;
    forall i, j | 0 <= i < j < |calls| && calls[i].ip.Some? && calls[j].ip.Some?
      ensures calls[i].profile != calls[j].profile ==> calls[i].ip.value.c != calls[j].ip.value.c
      ensures calls[i].profile == calls[j].profile ==> calls[i].ip == calls[j].ip
    {
      if calls[i].profile != calls[j].profile {
        SubnetsAreDistinct(ss, calls, i, j);
      } else {
        AddressIsStable(ss, calls, i, j);
      }
    }
  }

  // ---- When allocation fails -------------------------------------------------------------

  /** The other profiles that have addresses. */
  function Holders(confs: Confs, profile: string): set<string> {
    set p | p in confs.Keys && p != profile && IpOf(confs, p).Some?
  }

  lemma {:induction false} HoldersOf(confs: Confs, profile: string, k: nat) returns (hs: set<string>)
    requires k <= LAST + 1 - FIRST && profile != DEFAULT
    requires forall n :: FIRST <= n < FIRST + k ==> Taken(confs, profile, n)
    ensures hs <= Holders(confs, profile) && |hs| == k
    ensures forall p <- hs :: IpOf(confs, p).value.c < FIRST + k
  {
    hide Taken, IpOf;
    if k == 0 {
      hs := {};
    } else {
      var rest := HoldersOf(confs, profile, k - 1);
      var p := HolderOf(confs, profile, FIRST + k - 1);
      hs := rest + {p};
    }
  }

  lemma HolderOf(confs: Confs, profile: string, n: nat) returns (p: string)
    requires FIRST <= n && Taken(confs, profile, n) && profile != DEFAULT
    ensures p in Holders(confs, profile) && IpOf(confs, p).value.c == n
  {
    if n == DefaultOctet(confs) {
      p := DEFAULT;
    } else {
      hide IpOf;
      p :| p in confs.Keys - {DEFAULT} && p != profile && n in OctetOf(confs, p);
    }
    assert IpOf(confs, p).Some?;
    HasFile(confs, p);
  }

  /** Allocation fails exactly for a named profile without an address when all of 106 to 254 are
      taken: at least 149 other profiles then have addresses. */
  lemma FailsOnlyWhenFull(ss: seq<Confs>, calls: seq<Called>, i: nat)
    requires Calls(ss, calls) && i < |calls|
    ensures calls[i].ip.None? <==>
              && calls[i].profile != DEFAULT && IpOf(ss[i], calls[i].profile).None?
              && forall n :: FIRST <= n <= LAST ==> Taken(ss[i], calls[i].profile, n)
    ensures calls[i].ip.None? ==> |Holders(ss[i], calls[i].profile)| >= 149
  {
    hide Load, Taken, IpOf;
    assert Call(ss[i], calls[i].profile, calls[i].ip, ss[i + 1]);
    if calls[i].ip.None? {
      var hs := HoldersOf(ss[i], calls[i].profile, 149);
      assert Holders(ss[i], calls[i].profile) == hs + (Holders(ss[i], calls[i].profile) - hs);
    }
  }

  // ---- The addresses are addresses -------------------------------------------------------

  lemma {:induction false} ReadLinesIp(cfg: Config, lines: seq<string>)
    requires cfg.vmIp.Some? ==> IsIp(cfg.vmIp.value)
    ensures ReadLines(cfg, lines).vmIp.Some? ==> IsIp(ReadLines(cfg, lines).vmIp.value)
    decreases |lines|
  {
    if lines != [] {
      IpOfLine(cfg, Trim(lines[0]));
      hide Set, Trim, Before, After, ReadTrimmed;
      ReadLinesIp(ReadLine(cfg, lines[0]), lines[1..]);
    }
  }

  lemma AddressIsIp(ss: seq<Confs>, calls: seq<Called>, i: nat)
    requires Calls(ss, calls) && i < |calls| && calls[i].ip.Some?
    ensures IsIp(calls[i].ip.value)
  {
    assert Call(ss[i], calls[i].profile, calls[i].ip, ss[i + 1]);
    ReadLinesIp(EMPTY, Lines(TextOf(ss[i], calls[i].profile)));
    hide ReadLines, Lines, Taken;
  }

  // ---- One profile's network -------------------------------------------------------------

  /** Over every run the networks of two profiles have no address in common, and a profile has one. */
  lemma ProfileNetworks(ss: seq<Confs>, calls: seq<Called>, i: nat, j: nat, source: Ip)
    requires Run(ss, calls) && i < |calls| && j < |calls| && calls[i].ip.Some? && calls[j].ip.Some? && IsIp(source)
    ensures calls[i].profile == calls[j].profile ==> calls[i].ip == calls[j].ip
    ensures calls[i].profile != calls[j].profile ==>
              !(&& Covers(FromGuestIp(calls[i].ip.value).cidr, source)
                && Covers(FromGuestIp(calls[j].ip.value).cidr, source))
  {
    hide Call, Good, Covers, FromGuestIp;
    if calls[i].profile != calls[j].profile {
      SubnetsAreDistinct(ss, calls, i, j);
      AddressIsIp(ss, calls, i);
      AddressIsIp(ss, calls, j);
      NetworksDisjoint(calls[i].ip.value, calls[j].ip.value, source);
    } else if i < j {
      AddressIsStable(ss, calls, i, j);
    } else if j < i {
      AddressIsStable(ss, calls, j, i);
    }
  }

  // ---- Host and guest --------------------------------------------------------------------

  /** No stored address is the first of its network, which is the host's. */
  ghost predicate NoneIsHosts(confs: Confs) {
    forall p :: IpOf(confs, p).Some? ==> IpOf(confs, p).value.d != 1
  }

  lemma NewAddress(confs: Confs, profile: string, ip: Ip, confs': Confs)
    requires Call(confs, profile, Some(ip), confs') && IpOf(confs, profile).None?
    ensures IsIp(ip) && FromGuestIp(ip).hostIp4 != ip
    ensures confs' == confs[profile := Appended(TextOf(confs, profile), ip)]
  {
    hide IpOf, TextOf, Appended, Taken;
    if profile != DEFAULT {
      var n :| ip == Ip(192, 168, n, 2) && Lowest(confs, profile, FIRST, n);
    }
    HostIsFirst(ip);
  }

  lemma CallKeepsHosts(confs: Confs, profile: string, ip: Option<Ip>, confs': Confs)
    requires NoneIsHosts(confs) && Call(confs, profile, ip, confs')
    ensures NoneIsHosts(confs') && (ip.Some? ==> FromGuestIp(ip.value).hostIp4 != ip.value)
  {
    if ip.Some? && IpOf(confs, profile).None? {
      NewAddress(confs, profile, ip.value, confs');
      Written(confs, profile, ip.value);
    }
    hide IpOf, TextOf, Appended, Lowest, Taken;
  }

  /** No profile is given the address of its own host, however often addresses are asked for, as long
      as none was stored by hand. */
  lemma {:induction false} GuestIsNotHost(ss: seq<Confs>, calls: seq<Called>, i: nat)
    requires Calls(ss, calls) && NoneIsHosts(ss[0]) && i <= |calls|
    ensures NoneIsHosts(ss[i])
    ensures i < |calls| && calls[i].ip.Some? ==> FromGuestIp(calls[i].ip.value).hostIp4 != calls[i].ip.value
  {
    hide Call, NoneIsHosts, FromGuestIp;
    if i > 0 {
      GuestIsNotHost(ss, calls, i - 1);
      CallKeepsHosts(ss[i - 1], calls[i - 1].profile, calls[i - 1].ip, ss[i]);
    }
    if i < |calls| {
      CallKeepsHosts(ss[i], calls[i].profile, calls[i].ip, ss[i + 1]);
    }
  }
}
