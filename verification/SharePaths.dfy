/** Host paths as guest mount paths, and back by the docker front end. */
module SharePaths {
  import opened MountCheck
  import opened Paths
  import opened Shares
  import opened Text
  import opened Wrappers

  datatype Mount = Mount(tag: string, subpath: string, container: string)

  /** The first share of that host path, which may be written differently; |shares| if none. */
  function FindHost(shares: seq<Share>, host: string): (k: nat)
    ensures k <= |shares|
  {
    if shares == [] then 0
    else if SamePath(shares[0].hostPath, host) then 0
    else 1 + FindHost(shares[1..], host)
  }

  function Subpath(home: string, host: string): string {
    if home + "/" <= host then host[|home| + 1..] else ""
  }

  /** The mount for one -v flag: HOME's share with a subpath, or the path's own share.  `home` is
      empty when HOME is not set. */
  function MountOf(home: string, shares: seq<Share>, spec: string): Option<Mount> {
    var parts := SplitN3(spec);
    if |parts| < 2 then None
    else if home != "" && Under(home, parts[0]) then
      Some(Mount("share0", Subpath(home, parts[0]), parts[1]))
    else
      var k := FindHost(shares, parts[0]);
      if k < |shares| then Some(Mount(shares[k].tag, "", parts[1])) else None
  }

  /** Where the guest finds it. */
  function GuestSource(m: Mount): string {
    if m.subpath == "" then "/mnt/" + m.tag
    else "/mnt/" + m.tag + "/" + TrimStart(m.subpath, '/')
  }

  function GuestSpec(m: Mount): string {
    GuestSource(m) + [':'] + m.container
  }

  /** The first share whose mount point is a prefix, as text. */
  function HostSource(shares: seq<Share>, vmSource: string): Option<string> {
    if shares == [] then None
    else
      var prefix := "/mnt/" + shares[0].tag;
      if prefix <= vmSource then
        var suffix := vmSource[|prefix|..];
        Some(if suffix == "" then shares[0].hostPath else TrimEnd(shares[0].hostPath, '/') + suffix)
      else HostSource(shares[1..], vmSource)
  }

  function TranslateVolumeSpec(shares: seq<Share>, spec: string): string {
    if ':' !in spec then spec
    else match HostSource(shares, Before(spec, ':'))
      case None => spec
      case Some(host) => host + [':'] + After(spec, ':')
  }

  // ---- Tags as text prefixes -------------------------------------------------------------

  const MNT_SHARE := "/mnt/share"

  lemma MountPoint(i: nat)
    ensures "/mnt/" + Tag(i) == MNT_SHARE + Digits(i)
  {
  }

  /** Against a source that starts with a digit, shares before the one of that digit do not
      match, and that one does. */
  lemma MatchDigit(j: nat, d: nat, suffix: string)
    requires j <= d < 10
    ensures "/mnt/" + Tag(j) <= MNT_SHARE + [Digit(d)] + suffix <==> j == d
    ensures |"/mnt/" + Tag(j)| == |MNT_SHARE| + 1
  {
    var p, s := "/mnt/" + Tag(j), MNT_SHARE + [Digit(d)] + suffix;
    MountPoint(j);
    assert p[|MNT_SHARE|] == Digit(j) && s[|MNT_SHARE|] == Digit(d);
    assert p[..|MNT_SHARE|] == MNT_SHARE;
    if j == d {
      assert s[..|p|] == p;
    }
  }

  lemma {:induction false} FirstMatch(vs: seq<Volume>, j: nat, d: nat, suffix: string)
    requires j <= d < 10 && d < |vs|
    ensures HostSource(Tagged(vs)[j..], MNT_SHARE + [Digit(d)] + suffix)
         == Some(if suffix == "" then vs[d].host else TrimEnd(vs[d].host, '/') + suffix)
    decreases d - j
  {
    var s := MNT_SHARE + [Digit(d)] + suffix;
    var shares := Tagged(vs)[j..];
    MatchDigit(j, d, suffix);
    assert shares[0] == Tagged(vs)[j] && shares[1..] == Tagged(vs)[j + 1..];
    hide Tag, Digit;
    if j == d {
      assert s[|"/mnt/" + Tag(j)|..] == suffix;
    } else {
      FirstMatch(vs, j + 1, d, suffix);
    }
  }

  /** The volumes share, which comes first, is never mistaken for another. */
  lemma SourceOfShare(volumes: Share, vs: seq<Volume>, d: nat, suffix: string)
    requires volumes.tag == VOLUMES_TAG && d < 10 && d < |vs|
    ensures HostSource([volumes] + Tagged(vs), MNT_SHARE + [Digit(d)] + suffix)
         == Some(if suffix == "" then vs[d].host else TrimEnd(vs[d].host, '/') + suffix)
  {
    var s := MNT_SHARE + [Digit(d)] + suffix;
    var prefix := "/mnt/" + VOLUMES_TAG;
    assert prefix[5] == 'p' && s[5] == 's';
    assert ([volumes] + Tagged(vs))[1..] == Tagged(vs)[0..];
    FirstMatch(vs, 0, d, suffix);
  }

  lemma TranslateSource(shares: seq<Share>, source: string, container: string)
    requires ':' !in source
    ensures TranslateVolumeSpec(shares, source + [':'] + container)
         == match HostSource(shares, source)
            case None => source + [':'] + container
            case Some(host) => host + [':'] + container
  {
    Splits(source, ':', container);
  }

  lemma NoColonInTag(i: nat)
    ensures ':' !in Tag(i)
  {
    var t := Tag(i);
    assert forall k :: 5 <= k < |t| ==> t[k] in Digits(i);
    assert forall k :: 0 <= k < 5 ==> t[k] == "share"[k];
  }

  lemma SameHost(a: string, b: string, container: string)
    ensures a + [':'] + container == b + [':'] + container <==> a == b
  {
    var (s, t) := (a + [':'] + container, b + [':'] + container);
    if s == t {
      assert |a| == |b|;
      assert s[..|a|] == a && t[..|b|] == b;
    }
  }

  // ---- Round trips -----------------------------------------------------------------------

  /** What the mount point of share k is taken for: from share10 on, a path in the share of its
      first digit. */
  function TakenFor(vs: seq<Volume>, k: nat): string
    requires k < |vs|
  {
    if k < 10 then vs[k].host else TrimEnd(vs[FirstDigit(k)].host, '/') + Digits(k)[1..]
  }

  lemma OwnShareBack(volumes: Share, vs: seq<Volume>, k: nat, container: string)
    requires volumes.tag == VOLUMES_TAG && k < |vs|
    ensures TranslateVolumeSpec([volumes] + Tagged(vs), GuestSpec(Mount(Tag(k), "", container)))
         == TakenFor(vs, k) + [':'] + container
  {
    var d := FirstDigit(k);
    DigitsStart(k);
    MountPoint(k);
    var source := "/mnt/" + Tag(k);
    assert Digits(k) == [Digit(d)] + Digits(k)[1..];
    assert source == MNT_SHARE + [Digit(d)] + Digits(k)[1..];
    SourceOfShare(volumes, vs, d, Digits(k)[1..]);
    NoColonInTag(k);
    hide Tagged, HostSource;
    TranslateSource([volumes] + Tagged(vs), source, container);
  }

  lemma {:induction false} FoundHost(shares: seq<Share>, host: string)
    ensures var k := FindHost(shares, host);
            && (k < |shares| ==> SamePath(shares[k].hostPath, host))
            && forall j :: 0 <= j < k ==> !SamePath(shares[j].hostPath, host)
  {
    hide SamePath;
    if shares != [] {
      FoundHost(shares[1..], host);
    }
  }

  function HomeOrEmpty(env: Env): string {
    if env.home.Some? then env.home.value else ""
  }

  /** A path with its own share: the mount names share k, and the front end, which reads the running
      daemon's list, takes it for the path that the daemon was given for share k, unless a share
      before it has a tag that is a proper prefix of its own. */
  lemma ShareRoundTrip(env: Env, vs: seq<Volume>, running: seq<Volume>, spec: string, k: nat)
    requires k < |vs| == |running| && |SplitN3(spec)| >= 2
    requires HomeOrEmpty(env) == "" || !Under(HomeOrEmpty(env), SplitN3(spec)[0])
    requires FindHost([VolumesShare(env)] + Tagged(vs), SplitN3(spec)[0]) == k + 1
    ensures var m := MountOf(HomeOrEmpty(env), [VolumesShare(env)] + Tagged(vs), spec);
            var host, container := SplitN3(spec)[0], SplitN3(spec)[1];
            var guest := GuestSpec(Mount(Tag(k), "", container));
            var back := TranslateVolumeSpec([VolumesShare(env)] + Tagged(running), guest);
            && m == Some(Mount(Tag(k), "", container))
            && (back == host + [':'] + container
                <==> host == if k < 10 then running[k].host
                             else TrimEnd(running[FirstDigit(k)].host, '/') + Digits(k)[1..])
  {
    var host, container := SplitN3(spec)[0], SplitN3(spec)[1];
    assert ([VolumesShare(env)] + Tagged(vs))[k + 1] == Tagged(vs)[k];
    OwnShareBack(VolumesShare(env), running, k, container);
    SameHost(TakenFor(running, k), host, container);
    hide HostSource, TranslateVolumeSpec, GuestSpec, Digits, Tag, TrimEnd, SplitN3, FindHost, VolumesShare;
  }

  lemma Ten()
    ensures FirstDigit(10) == 1 && Digits(10)[1..] == "0"
  {
    assert Digits(1) == [Digit(1)];
    assert Digits(10) == Digits(1) + [Digit(0)];
  }

  /** What a subpath of HOME is taken for. */
  function HomeTakenFor(home: string, sub: string): string {
    if sub == "" then home else TrimEnd(home, '/') + ("/" + TrimStart(sub, '/'))
  }

  lemma HomeShareBack(volumes: Share, vs: seq<Volume>, sub: string, container: string)
    requires volumes.tag == VOLUMES_TAG && |vs| > 0 && ':' !in sub
    ensures TranslateVolumeSpec([volumes] + Tagged(vs), GuestSpec(Mount("share0", sub, container)))
         == HomeTakenFor(vs[0].host, sub) + [':'] + container
  {
    var suffix := if sub == "" then "" else "/" + TrimStart(sub, '/');
    var source := GuestSource(Mount("share0", sub, container));
    assert source == MNT_SHARE + [Digit(0)] + suffix && ':' !in source by {
      HomeSource(sub, container);
    }
    SourceOfShare(volumes, vs, 0, suffix);
    hide Tagged, HostSource, TrimStart, TrimEnd, GuestSource;
    TranslateSource([volumes] + Tagged(vs), source, container);
  }

  lemma HomeSource(sub: string, container: string)
    requires ':' !in sub
    ensures var suffix := if sub == "" then "" else "/" + TrimStart(sub, '/');
            var source := GuestSource(Mount("share0", sub, container));
            source == MNT_SHARE + [Digit(0)] + suffix && ':' !in source
  {
    hide TrimStart;
    var trimmed := TrimStart(sub, '/');
    var point := MNT_SHARE + [Digit(0)];
    assert point == "/mnt/share0" && "/mnt/" + "share0" == point;
    assert ':' !in point;
    assert forall k :: 0 <= k < |trimmed| ==> trimmed[k] == sub[|sub| - |trimmed| + k];
    assert ':' !in trimmed;
    PointAndPath(point, trimmed);
    PointAndPath(point, "");
  }

  lemma PointAndPath(point: string, path: string)
    requires ':' !in point && ':' !in path
    ensures ':' !in point + "/" + path && point + "/" + path == point + ("/" + path)
    ensures point + "" == point
  {
  }

  /** Trimming slashes at the seam of HOME and subpath is harmless only when there are none. */
  lemma HomeSeam(home: string, sub: string)
    requires home != ""
    ensures HomeTakenFor(home, sub) == home + ("/" + sub)
            <==> home[|home| - 1] != '/' && sub != "" && sub[0] != '/'
  {
    var a, b := TrimEnd(home, '/'), TrimStart(sub, '/');
    assert (a == home <==> home[|home| - 1] != '/') && (b == sub <==> sub == "" || sub[0] != '/');
    assert |a| <= |home|;
    hide TrimStart, TrimEnd;
    if sub != "" {
      Seam(home, sub, a, b);
    } else {
      assert |home| < |home + ("/" + sub)|;
    }
  }

  lemma Seam(home: string, sub: string, a: string, b: string)
    requires |a| <= |home| && |b| <= |sub|
    ensures a + ("/" + b) == home + ("/" + sub) <==> a == home && b == sub
  {
    var s, t := a + ("/" + b), home + ("/" + sub);
    if s == t {
      assert |s| == |t|;
      assert s[..|a|] == a && t[..|home|] == home;
      assert s[|a| + 1..] == b && t[|home| + 1..] == sub;
    }
  }

  /** A path under HOME comes back exactly when it is HOME itself, or neither HOME ends nor the
      subpath starts with a slash. */
  lemma HomeRoundTrip(env: Env, vs: seq<Volume>, spec: string)
    requires HomeOrEmpty(env) != "" && |SplitN3(spec)| >= 2 && Under(HomeOrEmpty(env), SplitN3(spec)[0])
    requires |vs| > 0 && vs[0].host == HomeOrEmpty(env)
    ensures var shares, home := [VolumesShare(env)] + Tagged(vs), HomeOrEmpty(env);
            var m := MountOf(home, shares, spec);
            var host, container := SplitN3(spec)[0], SplitN3(spec)[1];
            var sub := Subpath(home, host);
            && m == Some(Mount("share0", sub, container))
            && (TranslateVolumeSpec(shares, GuestSpec(m.value)) == host + [':'] + container
                <==> host == home || (home[|home| - 1] != '/' && sub != "" && sub[0] != '/'))
  {
    var home, host, container := HomeOrEmpty(env), SplitN3(spec)[0], SplitN3(spec)[1];
    var sub := Subpath(home, host);
    NoColonInSubpath(home, host);
    HomeTaken(home, host);
    HomeShareBack(VolumesShare(env), vs, sub, container);
    SameHost(HomeTakenFor(home, sub), host, container);
    hide SplitN3, TranslateVolumeSpec, GuestSpec, HomeTakenFor, Tagged, Subpath, Under, VolumesShare, MountOf;
    MountUnderHome(home, [VolumesShare(env)] + Tagged(vs), spec);
  }

  lemma MountUnderHome(home: string, shares: seq<Share>, spec: string)
    requires home != "" && |SplitN3(spec)| >= 2 && Under(home, SplitN3(spec)[0])
    ensures MountOf(home, shares, spec) == Some(Mount("share0", Subpath(home, SplitN3(spec)[0]), SplitN3(spec)[1]))
  {
  }

  lemma NoColonInSubpath(home: string, host: string)
    requires ':' !in host
    ensures ':' !in Subpath(home, host)
  {
  }

  lemma HomeTaken(home: string, host: string)
    requires home != "" && Under(home, host)
    ensures var sub := Subpath(home, host);
            HomeTakenFor(home, sub) == host
            <==> host == home || (home[|home| - 1] != '/' && sub != "" && sub[0] != '/')
  {
    var sub := Subpath(home, host);
    HomeItself(home);
    HomeSeam(home, sub);
    hide HomeTakenFor;
    if home + "/" <= host {
      assert host == home + ("/" + sub);
    }
  }

  lemma HomeItself(home: string)
    ensures HomeTakenFor(home, "") == home
  {
  }

  // ---- Every volume is mounted -----------------------------------------------------------

  lemma HostIsFound(shares: seq<Share>, k: nat)
    requires k < |shares|
    ensures FindHost(shares, shares[k].hostPath) <= k
  {
    FoundHost(shares, shares[k].hostPath);
    SameAsItself(shares[k].hostPath);
    hide SamePath, FindHost;
  }

  lemma {:induction false} OutsideKeeps(env: Env, specs: seq<string>, spec: string)
    requires spec in specs && !UnderHome(env, spec)
    ensures spec in Outside(env, specs)
  {
    if specs[0] != spec {
      assert spec in specs[1..];
      OutsideKeeps(env, specs[1..], spec);
    }
  }

  lemma IsEffective(env: Env, volumes: seq<string>, spec: string) returns (specs: seq<string>, vs: seq<Volume>)
    requires ShareList(env, volumes).Some? && spec in volumes && !UnderHome(env, spec)
    ensures spec in specs && Volumes(env, specs) == Some(vs)
    ensures ShareList(env, volumes) == Some([VolumesShare(env)] + Tagged(vs))
  {
    specs := Effective(env, Given(env, volumes));
    vs := Volumes(env, specs).value;
    if Given(env, volumes) != volumes && spec == volumes[0] {
      assert HomeSpec(env) == [spec];
    } else {
      OutsideKeeps(env, Given(env, volumes), spec);
    }
  }

  /** No path is empty, so a process that has its share list does not have an empty HOME. */
  lemma HomeNotEmpty(env: Env, volumes: seq<string>)
    requires ShareList(env, volumes).Some? && !env.onDisk("")
    ensures env.home != Some("")
  {
    hide ShareList;
    var outside, vs := OwnList(env, volumes);
    assert env.home.Some? ==> (HomeSpec(env) + outside)[0] == env.home.value + ":";
  }

  /** Once the process has its share list, no -v flag with a container part is dropped. */
  lemma EveryVolumeIsMounted(env: Env, volumes: seq<string>, spec: string)
    requires ShareList(env, volumes).Some? && spec in volumes && |SplitN3(spec)| >= 2
    requires !env.onDisk("")
    ensures MountOf(HomeOrEmpty(env), ShareList(env, volumes).value, spec).Some?
  {
    hide ShareList, Before, Volumes, Tagged, MountOf, SplitN3, Under;
    HomeNotEmpty(env, volumes);
    SpecHost(env, spec);
    if UnderHome(env, spec) {
      MountUnderHome(env.home.value, ShareList(env, volumes).value, spec);
    } else {
      var specs, vs := IsEffective(env, volumes, spec);
      var k :| 0 <= k < |specs| && specs[k] == spec;
      TaggedHost(vs, k);
      var shares := [VolumesShare(env)] + Tagged(vs);
      assert shares[k + 1] == Tagged(vs)[k];
      HostIsFound(shares, k + 1);
      MountWhenFound(HomeOrEmpty(env), shares, spec);
    }
  }

  lemma SpecHost(env: Env, spec: string)
    ensures SplitN3(spec)[0] == Before(spec, ':')
    ensures ReadSpec(env, spec).Some? ==> ReadSpec(env, spec).value.host == SplitN3(spec)[0]
  {
  }

  lemma TaggedHost(vs: seq<Volume>, k: nat)
    requires k < |vs|
    ensures Tagged(vs)[k].hostPath == vs[k].host
  {
  }

  lemma MountWhenFound(home: string, shares: seq<Share>, spec: string)
    requires |SplitN3(spec)| >= 2 && FindHost(shares, SplitN3(spec)[0]) < |shares|
    ensures MountOf(home, shares, spec).Some?
  {
  }

  // ---- Every volume comes back -----------------------------------------------------------

  lemma VolumesShareBack(volumes: Share, vs: seq<Volume>, container: string)
    requires volumes.tag == VOLUMES_TAG
    ensures TranslateVolumeSpec([volumes] + Tagged(vs), GuestSpec(Mount(VOLUMES_TAG, "", container)))
         == volumes.hostPath + [':'] + container
  {
    var source := "/mnt/" + VOLUMES_TAG;
    assert ':' !in source;
    hide Tagged;
    assert ([volumes] + Tagged(vs))[0] == volumes;
    assert source[|source|..] == "";
    TranslateSource([volumes] + Tagged(vs), source, container);
  }

  /** HOME's own share comes first of the numbered ones. */
  lemma HomeIsFirst(env: Env, volumes: seq<string>, host: string) returns (vs: seq<Volume>)
    requires ShareList(env, volumes).Some? && env.home.Some? && Under(env.home.value, host) && ':' !in host
    ensures ShareList(env, volumes) == Some([VolumesShare(env)] + Tagged(vs))
    ensures |vs| > 0 && vs[0].host == env.home.value
  {
    var outside;
    outside, vs := OwnList(env, volumes);
    UnderHasNoColon(env.home.value, host);
    var specs := HomeSpec(env) + outside;
    HomeSpecFirst(env, outside);
    assert ReadSpec(env, specs[0]) == Some(vs[0]);
    var h := env.home.value;
    assert specs[0] == h + [':'] + "";
    Splits(h, ':', "");
    SpecHost(env, specs[0]);
  }

  /** Where a volume of the process goes when its guest path is mapped back: a path under HOME loses
      the extra slashes where HOME ends, any other returns as the running daemon was given it. */
  function ReturnsAs(home: string, own: seq<Share>, running: seq<Share>, host: string): string
    requires |own| == |running|
  {
    if home != "" && Under(home, host) then HomeTakenFor(home, Subpath(home, host))
    else if FindHost(own, host) < |own| then running[FindHost(own, host)].hostPath
    else host
  }

  /** Host path to guest path and back, for every volume of a process with at most ten numbered
      shares that uses a running daemon with the same shares: the container path returns, and the
      host path with the same components. */
  lemma VolumesComeBack(env: Env, volumes: seq<string>, vs: seq<Volume>, rs: seq<Volume>, spec: string)
    requires ShareList(env, volumes) == Some([VolumesShare(env)] + Tagged(vs)) && |vs| <= 10
    requires SameVolumes(rs, vs) && (vs != [] && Some(vs[0].host) == env.home ==> rs[0].host == vs[0].host)
    requires spec in volumes && |SplitN3(spec)| >= 2 && !env.onDisk("")
    ensures var own, running := [VolumesShare(env)] + Tagged(vs), [VolumesShare(env)] + Tagged(rs);
            var m := MountOf(HomeOrEmpty(env), own, spec);
            var host, container := SplitN3(spec)[0], SplitN3(spec)[1];
            var back := ReturnsAs(HomeOrEmpty(env), own, running, host);
            && m.Some? && TranslateVolumeSpec(running, GuestSpec(m.value)) == back + [':'] + container
            && SamePath(back, host)
  {
    hide ShareList, Before, Volumes, Tagged, MountOf, Under, TranslateVolumeSpec, GuestSpec, Subpath, FindHost,
         SamePath, HomeTakenFor, SplitN3;
    HomeNotEmpty(env, volumes);
    SpecHost(env, spec);
    var home, host, container := HomeOrEmpty(env), SplitN3(spec)[0], SplitN3(spec)[1];
    var own := [VolumesShare(env)] + Tagged(vs);
    if home != "" && Under(home, host) {
      var vs' := HomeIsFirst(env, volumes, host);
      SameTags(vs, vs', VolumesShare(env));
      MountUnderHome(home, own, spec);
      NoColonInSubpath(home, host);
      HomeShareBack(VolumesShare(env), rs, Subpath(home, host), container);
      HomeSameComponents(home, host);
    } else {
      EveryVolumeIsMounted(env, volumes, spec);
      OutsideMount(home, own, spec);
      FoundHost(own, host);
      OutsideReturns(VolumesShare(env), vs, rs, FindHost(own, host), host, container);
    }
  }

  /** Whatever volumes the running daemon was given: every process that passes its mount check with at
      most ten numbered shares gets each of its volumes back, with its container path and with the
      components of its host path. */
  lemma WhoPassesGetsItBack(env: Env, daemon: seq<string>, volumes: seq<string>, spec: string)
    requires Passes(ShareList(env, daemon), ShareList(env, volumes)) && |ShareList(env, volumes).value| <= 11
    requires spec in volumes && |SplitN3(spec)| >= 2 && !env.onDisk("")
    ensures var own, running := ShareList(env, volumes).value, ShareList(env, daemon).value;
            var m := MountOf(HomeOrEmpty(env), own, spec);
            var host, container := SplitN3(spec)[0], SplitN3(spec)[1];
            && |own| == |running| && m.Some?
            && var back := ReturnsAs(HomeOrEmpty(env), own, running, host);
               TranslateVolumeSpec(running, GuestSpec(m.value)) == back + [':'] + container && SamePath(back, host)
  {
    hide ShareList, Tagged, MountOf, TranslateVolumeSpec, GuestSpec, SamePath, ReturnsAs, SplitN3, HomeOrEmpty;
    var rs := NumberedShares(env, daemon);
    var vs := NumberedShares(env, volumes);
    hide Passes;
    PassesNumbered(VolumesShare(env), rs, vs);
    VolumesComeBack(env, volumes, vs, rs, spec);
  }

  /** A list is the volumes share and the numbered shares, of which HOME is the first. */
  lemma NumberedShares(env: Env, volumes: seq<string>) returns (vs: seq<Volume>)
    requires ShareList(env, volumes).Some?
    ensures ShareList(env, volumes) == Some([VolumesShare(env)] + Tagged(vs))
    ensures env.home.Some? && ':' !in env.home.value ==> vs != [] && vs[0].host == env.home.value
    ensures vs != [] ==> ':' !in vs[0].host
  {
    if env.home.Some? && ':' !in env.home.value {
      vs := HomeIsFirst(env, volumes, env.home.value);
    } else {
      var outside;
      outside, vs := OwnList(env, volumes);
    }
  }

  lemma PassesNumbered(share: Share, rs: seq<Volume>, vs: seq<Volume>)
    requires Passes(Some([share] + Tagged(rs)), Some([share] + Tagged(vs)))
    ensures SameVolumes(rs, vs)
  {
    hide Tagged, SameShares, SameVolumes;
    SameTagged(share, rs, vs);
  }

  /** The volumes share and the first ten others come back to themselves. */
  lemma OutsideReturns(share: Share, vs: seq<Volume>, rs: seq<Volume>, k: nat, host: string, container: string)
    requires share.tag == VOLUMES_TAG && SameVolumes(rs, vs) && |vs| <= 10 && k <= |vs|
    requires SamePath(([share] + Tagged(vs))[k].hostPath, host)
    ensures var own, running := [share] + Tagged(vs), [share] + Tagged(rs);
            && TranslateVolumeSpec(running, GuestSpec(Mount(own[k].tag, "", container)))
               == running[k].hostPath + [':'] + container
            && SamePath(running[k].hostPath, host)
  {
    hide TranslateVolumeSpec, GuestSpec, SamePath, Tag;
    var own, running := [share] + Tagged(vs), [share] + Tagged(rs);
    if k == 0 {
      VolumesShareBack(share, rs, container);
    } else {
      assert own[k] == Tagged(vs)[k - 1] && running[k] == Tagged(rs)[k - 1];
      assert SameVolume(rs[k - 1], vs[k - 1]);
      SamePathAlong(running[k].hostPath, own[k].hostPath, host);
      OwnShareBack(share, rs, k - 1, container);
    }
  }

  lemma SamePathAlong(a: string, b: string, c: string)
    requires SamePath(a, b) && SamePath(b, c)
    ensures SamePath(a, c)
  {
  }

  lemma HomeSameComponents(home: string, host: string)
    requires home != "" && Under(home, host)
    ensures SamePath(HomeTakenFor(home, Subpath(home, host)), host)
  {
    var sub := Subpath(home, host);
    SameAsItself(home);
    TrailingSlash(home);
    SeamIsSame(home, sub);
    SamePathIsSymmetric(home + "/", home);
    SubpathIs(home, host);
    HomeTakenIs(home, sub);
    hide SamePath, TrimEnd, TrimStart, Subpath, HomeTakenFor;
  }

  lemma SubpathIs(home: string, host: string)
    requires Under(home, host)
    ensures var sub := Subpath(home, host);
            && (host == home + ['/'] + sub || (host == home && sub == ""))
            && (sub == "" ==> host == home || host == home + "/")
  {
  }

  lemma HomeTakenIs(home: string, sub: string)
    ensures HomeTakenFor(home, sub) == if sub == "" then home else TrimEnd(home, '/') + ['/'] + TrimStart(sub, '/')
  {
    hide TrimEnd, TrimStart;
    var a, b := TrimEnd(home, '/'), TrimStart(sub, '/');
    assert a + ['/'] + b == a + ("/" + b);
  }

  lemma OutsideMount(home: string, shares: seq<Share>, spec: string)
    requires |SplitN3(spec)| >= 2 && (home == "" || !Under(home, SplitN3(spec)[0])) && MountOf(home, shares, spec).Some?
    ensures var k := FindHost(shares, SplitN3(spec)[0]);
            k < |shares| && MountOf(home, shares, spec) == Some(Mount(shares[k].tag, "", SplitN3(spec)[1]))
  {
  }

  // ---- Where the text does not come back -------------------------------------------------

  /** One path with two spellings on one command line: the second volume comes back in the spelling
      of the first. */
  lemma TwoSpellings(env: Env, path: string)
    requires env.home.Some? && env.home.value != "" && ':' !in env.home.value && env.onDisk(env.home.value)
    requires path != "" && ':' !in path && env.onDisk(path) && env.onDisk(path + "/")
    requires !Under(env.home.value, path) && !Under(env.home.value, path + "/")
    requires !SamePath(env.volumesDir, path) && !SamePath(env.home.value, path)
    ensures var volumes := [SpecText(path + "/", "/a", false), SpecText(path, "/b", false)];
            var shares := ShareList(env, volumes);
            && shares.Some?
            && var m := MountOf(env.home.value, shares.value, volumes[1]);
               m.Some? && TranslateVolumeSpec(shares.value, GuestSpec(m.value)) == path + "/" + [':'] + "/b"
  {
    var vs := [Volume(env.home.value, "", false), Volume(path + "/", "/a", false), Volume(path, "/b", false)];
    var shares, spec := [VolumesShare(env)] + Tagged(vs), SpecText(path, "/b", false);
    TwoListed(env, path);
    TrailingSlash(path);
    assert ':' !in "/b";
    SpecParts(path, "/b");
    SecondOfThree(VolumesShare(env), vs, path);
    TagOf(VolumesShare(env), vs, 1);
    OwnShareBack(VolumesShare(env), vs, 1, "/b");
    hide SamePath, SplitN3, SpecText, Before, TranslateVolumeSpec, GuestSpec, Tag, FindHost, Tagged, Under, ShareList,
         MountOf;
    OutsideFound(env.home.value, shares, spec, 2);
  }

  lemma TwoListed(env: Env, path: string)
    requires env.home.Some? && ':' !in env.home.value && env.onDisk(env.home.value)
    requires ':' !in path && env.onDisk(path) && env.onDisk(path + "/")
    requires !Under(env.home.value, path) && !Under(env.home.value, path + "/")
    ensures ShareList(env, [SpecText(path + "/", "/a", false), SpecText(path, "/b", false)])
         == Some([VolumesShare(env)]
                 + Tagged([Volume(env.home.value, "", false), Volume(path + "/", "/a", false),
                           Volume(path, "/b", false)]))
  {
    hide SpecText, Before, ShareList, Tagged, Volumes, Outside, UnderHome, Under, ReadSpec, Given, HomeSpec;
    var a, b := SpecText(path + "/", "/a", false), SpecText(path, "/b", false);
    assert ':' !in "/a" && ':' !in "/b" && ':' !in path + "/";
    OneOutside(env, path + "/", "/a");
    OneOutside(env, path, "/b");
    OutsideOne(env, a);
    NothingGiven(env, a, [b]);
    HomeVolume(env);
    assert [a] + [b] == [a, b];
    OutsideAppend(env, [a], [b]);
    VolumesAppend(env, [a], [b]);
    VolumesAppend(env, HomeSpec(env), [a, b]);
    ListOf(env, [a, b]);
    var h, x, y := Volume(env.home.value, "", false), Volume(path + "/", "/a", false), Volume(path, "/b", false);
    assert [h] + ([x] + [y]) == [h, x, y];
  }

  lemma NothingGiven(env: Env, first: string, rest: seq<string>)
    requires env.home.Some? && ':' !in env.home.value && !UnderHome(env, first)
    ensures Given(env, [first] + rest) == [first] + rest
  {
    hide UnderHome;
    if first == env.home.value + ":" {
      HomeSpecUnder(env, first);
    }
  }

  lemma SecondOfThree(share: Share, vs: seq<Volume>, path: string)
    requires |vs| == 3 && SamePath(vs[1].host, path)
    requires !SamePath(share.hostPath, path) && !SamePath(vs[0].host, path)
    ensures FindHost([share] + Tagged(vs), path) == 2
  {
    hide SamePath, Tag, FindHost;
    var shares := [share] + Tagged(vs);
    assert shares[1] == Tagged(vs)[0] && shares[2] == Tagged(vs)[1];
    FirstFound(shares, path, 2);
  }

  lemma OutsideFound(home: string, shares: seq<Share>, spec: string, k: nat)
    requires |SplitN3(spec)| >= 2 && (home == "" || !Under(home, SplitN3(spec)[0]))
    requires FindHost(shares, SplitN3(spec)[0]) == k < |shares|
    ensures MountOf(home, shares, spec) == Some(Mount(shares[k].tag, "", SplitN3(spec)[1]))
  {
  }

  lemma FirstFound(shares: seq<Share>, host: string, k: nat)
    requires k < |shares| && SamePath(shares[k].hostPath, host)
    requires forall j :: 0 <= j < k ==> !SamePath(shares[j].hostPath, host)
    ensures FindHost(shares, host) == k
  {
    FoundHost(shares, host);
    hide SamePath, FindHost;
  }

  lemma SpecParts(host: string, container: string)
    requires ':' !in host && ':' !in container
    ensures SplitN3(SpecText(host, container, false)) == [host, container]
  {
    var t := SpecText(host, container, false);
    assert t == host + [':'] + container;
    Splits(host, ':', container);
  }

  /** Ten volumes outside HOME. */
  function TenVolumes(): (vs: seq<Volume>)
    ensures |vs| == 10
  {
    seq(10, i requires 0 <= i < 10 => Volume(['/'] + Digits(i), "/c", false))
  }

  function TenSpecs(): (specs: seq<string>)
    ensures |specs| == 10
  {
    seq(10, i requires 0 <= i < 10 => SpecText(['/'] + Digits(i), "/c", false))
  }

  const TEN_ENV := Env(Some("/u"), "/u/v", _ => true)

  lemma OneOfTen(i: nat)
    requires i < 10
    ensures Digits(i) == [Digit(i)] && ReadSpec(TEN_ENV, TenSpecs()[i]) == Some(TenVolumes()[i])
    ensures !UnderHome(TEN_ENV, TenSpecs()[i]) && ':' !in ['/'] + Digits(i)
  {
    var path := ['/'] + Digits(i);
    assert path[1] == Digit(i);
    assert ':' !in path && ':' !in "/c";
    SpecTextRead(TEN_ENV, path, "/c", false);
    assert "/u"[1] == 'u' && "/u/"[1] == 'u';
  }

  /** With ten volumes outside HOME a process has eleven numbered shares. */
  lemma ElevenShares()
    ensures ShareList(TEN_ENV, TenSpecs())
         == Some([VolumesShare(TEN_ENV)] + Tagged([Volume("/u", "", false)] + TenVolumes()))
  {
    forall i | 0 <= i < 10
      ensures ReadSpec(TEN_ENV, TenSpecs()[i]) == Some(TenVolumes()[i]) && !UnderHome(TEN_ENV, TenSpecs()[i])
    {
      OneOfTen(i);
    }
    hide ReadSpec, UnderHome;
    VolumesFromParts(TEN_ENV, TenSpecs(), TenVolumes());
    AllOutside(TEN_ENV, TenSpecs());
    TenGiven();
    BareList(TEN_ENV);
    hide TenSpecs, TenVolumes, Volumes, Tagged, Outside, Given;
    HomeVolume(TEN_ENV);
    VolumesAppend(TEN_ENV, HomeSpec(TEN_ENV), TenSpecs());
    ListOf(TEN_ENV, TenSpecs());
  }

  lemma TenGiven()
    ensures Given(TEN_ENV, TenSpecs()) == TenSpecs()
  {
    OneOfTen(0);
    var first := TenSpecs()[0];
    assert first == ['/'] + Digits(0) + [':'] + "/c";
    assert first[1] == Digit(0) && "/u:"[1] == 'u';
  }

  lemma HomeVolume(env: Env)
    requires env.home.Some? && ':' !in env.home.value && env.onDisk(env.home.value)
    ensures Volumes(env, HomeSpec(env)) == Some([Volume(env.home.value, "", false)])
  {
    var h := env.home.value;
    SpecTextRead(env, h, "", false);
    assert SpecText(h, "", false) == h + ":";
    hide ReadSpec;
    VolumesFromParts(env, [h + ":"], [Volume(h, "", false)]);
  }

  lemma DigitNames(i: nat)
    requires i < 10
    ensures Name(Digits(i)) && Digits(i) != "u" && Digits(i) == [Digit(i)]
  {
    assert Digits(i) == [Digit(i)];
    assert Digits(i)[0] == Digit(i) && "u"[0] == 'u' && "."[0] == '.';
  }

  lemma UvNames()
    ensures Name("u") && Name("v") && "/u" == ['/'] + "u" && "/u/v" == ['/'] + "u" + ['/'] + "v"
  {
  }

  lemma LastOfTen()
    ensures var shares := [VolumesShare(TEN_ENV)] + Tagged([Volume("/u", "", false)] + TenVolumes());
            |shares| == 12 && FindHost(shares, ['/'] + Digits(9)) == 11
  {
    var vs := [Volume("/u", "", false)] + TenVolumes();
    var shares, host := [VolumesShare(TEN_ENV)] + Tagged(vs), ['/'] + Digits(9);
    DigitNames(9);
    UvNames();
    forall j | 0 <= j < 11
      ensures !SamePath(shares[j].hostPath, host)
    {
      if j == 0 {
        DeeperDiffers("u", "v", Digits(9));
      } else if j == 1 {
        RootedNamesDiffer("u", Digits(9));
      } else {
        DigitNames(j - 2);
        assert shares[j].hostPath == vs[j - 1].host == ['/'] + Digits(j - 2);
        assert Digits(j - 2)[0] != Digits(9)[0];
        RootedNamesDiffer(Digits(j - 2), Digits(9));
      }
    }
    assert shares[11].hostPath == vs[10].host == host;
    SameAsItself(host);
    hide SamePath, FindHost, Digits, Tagged;
    FirstFound(shares, host, 11);
  }

  /** The last of ten volumes outside HOME gets share10, and comes back as a path under share1. */
  lemma Share10IsLost()
    ensures var shares := ShareList(TEN_ENV, TenSpecs());
            && shares.Some? && TenSpecs()[9] == SpecText("/9", "/c", false)
            && var m := MountOf("/u", shares.value, TenSpecs()[9]);
               m.Some? && TranslateVolumeSpec(shares.value, GuestSpec(m.value)) == "/00" + [':'] + "/c"
  {
    hide Digits, FirstDigit, TrimEnd, TranslateVolumeSpec, GuestSpec, Tagged, FindHost, SplitN3, ShareList, Under, Tag,
         TenSpecs, TenVolumes, MountOf, TakenFor, SpecText;
    var vs := [Volume("/u", "", false)] + TenVolumes();
    var shares, spec := [VolumesShare(TEN_ENV)] + Tagged(vs), TenSpecs()[9];
    ElevenShares();
    LastOfTen();
    NineAndZero();
    OwnShareBack(VolumesShare(TEN_ENV), vs, 10, "/c");
    TakenForTen();
    TagOf(VolumesShare(TEN_ENV), vs, 10);
    OutsideFound("/u", shares, spec, 11);
  }

  lemma TagOf(share: Share, vs: seq<Volume>, k: nat)
    requires k < |vs|
    ensures ([share] + Tagged(vs))[k + 1].tag == Tag(k)
  {
    assert ([share] + Tagged(vs))[k + 1] == Tagged(vs)[k];
  }

  lemma TakenForTen()
    ensures TakenFor([Volume("/u", "", false)] + TenVolumes(), 10) == "/00"
  {
    Ten();
    NineAndZero();
    hide Digits, FirstDigit, TrimEnd, TenVolumes;
    assert "/0" + "0" == "/00";
  }

  lemma NineAndZero()
    ensures TenSpecs()[9] == SpecText("/9", "/c", false) && SplitN3(TenSpecs()[9]) == ["/9", "/c"]
    ensures ['/'] + Digits(9) == "/9" && TenVolumes()[0].host == "/0" && TrimEnd("/0", '/') == "/0"
    ensures !Under("/u", "/9")
  {
    OneOfTen(9);
    OneOfTen(0);
    assert ['/'] + Digits(9) == "/9" && ['/'] + Digits(0) == "/0";
    assert ':' !in "/c";
    SpecParts("/9", "/c");
    assert "/9"[1] != "/u"[1] && "/9"[1] != "/u/"[1];
  }
}
