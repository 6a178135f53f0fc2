/** The mount check: what a daemon makes of the shares that it is spawned with, and which later
    processes it then accepts. */
module MountCheck {
  import opened Paths
  import opened Shares
  import opened Text
  import opened Wrappers

  // ---- Comparing share lists -------------------------------------------------------------

  /** Host paths compare by their components; the rest as text. */
  predicate SameShare(a: Share, b: Share) {
    SamePath(a.hostPath, b.hostPath) && a.tag == b.tag && a.readOnly == b.readOnly && a.containerPath == b.containerPath
  }

  predicate SameShares(a: seq<Share>, b: seq<Share>) {
    |a| == |b| && forall i :: 0 <= i < |a| ==> SameShare(a[i], b[i])
  }

  /** Nothing but the spelling of a host path may differ. */
  lemma SameButForSpelling(a: Share, b: Share)
    ensures SameShare(a, b) <==> SamePath(a.hostPath, b.hostPath) && a == b.(hostPath := a.hostPath)
  {
    hide SamePath;
  }

  predicate SameVolume(a: Volume, b: Volume) {
    SamePath(a.host, b.host) && a.container == b.container && a.readOnly == b.readOnly
  }

  predicate SameVolumes(a: seq<Volume>, b: seq<Volume>) {
    |a| == |b| && forall i :: 0 <= i < |a| ==> SameVolume(a[i], b[i])
  }

  /** A process with its own list goes on with a daemon that has the running one. */
  predicate Passes(running: Option<seq<Share>>, own: Option<seq<Share>>) {
    running.Some? && own.Some? && SameShares(running.value, own.value)
  }

  /** The specs can be read, and say the same. */
  predicate SaySame(env: Env, a: seq<string>, b: seq<string>) {
    Volumes(env, a).Some? && Volumes(env, b).Some? && SameVolumes(Volumes(env, a).value, Volumes(env, b).value)
  }

  /** The list of a process with these effective specs. */
  function Listed(env: Env, specs: seq<string>): Option<seq<Share>> {
    match Volumes(env, specs)
    case None => None
    case Some(vs) => Some([VolumesShare(env)] + Tagged(vs))
  }

  lemma ListOf(env: Env, volumes: seq<string>)
    ensures ShareList(env, volumes) == Listed(env, Effective(env, Given(env, volumes)))
  {
    hide Volumes, Tagged, Effective, Given;
  }

  lemma SameTagged(share: Share, a: seq<Volume>, b: seq<Volume>)
    ensures SameShares([share] + Tagged(a), [share] + Tagged(b)) <==> SameVolumes(a, b)
  {
    hide SamePath, Tag;
    var s, t := [share] + Tagged(a), [share] + Tagged(b);
    if SameShares(s, t) {
      forall i | 0 <= i < |a|
        ensures SameVolume(a[i], b[i])
      {
        assert SameShare(s[i + 1], t[i + 1]);
      }
    } else if SameVolumes(a, b) {
      forall i | 0 <= i < |s|
        ensures SameShare(s[i], t[i])
      {
        if i == 0 {
          SameAsItself(share.hostPath);
        } else {
          assert SameVolume(a[i - 1], b[i - 1]);
        }
      }
    }
  }

  lemma SameAsItself(path: string)
    ensures SamePath(path, path)
  {
  }

  lemma SameAfter(v: seq<Volume>, a: seq<Volume>, b: seq<Volume>)
    ensures SameVolumes(v + a, v + b) <==> SameVolumes(a, b)
  {
    hide SamePath;
    var s, t, n := v + a, v + b, |v|;
    if SameVolumes(s, t) {
      forall i | 0 <= i < |a|
        ensures SameVolume(a[i], b[i])
      {
        assert SameVolume(s[n + i], t[n + i]);
      }
    } else if SameVolumes(a, b) {
      forall i | 0 <= i < |s|
        ensures SameVolume(s[i], t[i])
      {
        if i < n {
          SameAsItself(v[i].host);
        } else {
          assert SameVolume(a[i - n], b[i - n]);
        }
      }
    }
  }

  /** Lists pass exactly when the specs behind the home spec say the same. */
  lemma PassesBySpecs(env: Env, a: seq<string>, b: seq<string>)
    requires Volumes(env, HomeSpec(env)).Some?
    ensures Passes(Listed(env, HomeSpec(env) + a), Listed(env, HomeSpec(env) + b)) <==> SaySame(env, a, b)
  {
    VolumesAppend(env, HomeSpec(env), a);
    VolumesAppend(env, HomeSpec(env), b);
    hide Volumes, HomeSpec, Tagged, SameShares, SameVolumes;
    if Volumes(env, a).Some? && Volumes(env, b).Some? {
      var h, x, y := Volumes(env, HomeSpec(env)).value, Volumes(env, a).value, Volumes(env, b).value;
      SameTagged(VolumesShare(env), h + x, h + y);
      SameAfter(h, x, y);
    }
  }

  // ---- What the daemon is told -----------------------------------------------------------

  /** The volumes share's own spec is never taken for the home spec, and is under HOME exactly
      when the directory is. */
  lemma VolumesShareSpec(env: Env)
    ensures var spec := ShareSpec(VolumesShare(env));
            && (env.home.Some? ==> spec != env.home.value + ":")
            && Before(spec, ':') == Before(env.volumesDir, ':')
  {
    var spec := ShareSpec(VolumesShare(env));
    assert spec == env.volumesDir + [':'] + VOLUMES_PATH;
    BeforeMore(env.volumesDir, VOLUMES_PATH);
    assert spec[|spec| - 1] == VOLUMES_PATH[|VOLUMES_PATH| - 1] == 's';
  }

  /** The effective specs of the daemon: those of its arguments that are not under HOME. */
  lemma EffectiveOf(env: Env, own: string, first: seq<string>, rest: seq<string>)
    requires forall s <- rest :: !UnderHome(env, s)
    requires |first| <= 1
    ensures Effective(env, [own] + (first + rest))
         == HomeSpec(env) + (Outside(env, [own]) + (Outside(env, first) + rest))
  {
    hide UnderHome, Outside, HomeSpec;
    AllOutside(env, rest);
    OutsideAppend(env, first, rest);
    OutsideAppend(env, [own], first + rest);
  }

  /** The home share's spec is under HOME unless HOME contains a colon. */
  lemma HomeSpecUnder(env: Env, again: string)
    requires env.home.Some? && Before(again, ':') == Before(env.home.value + ":", ':')
    ensures UnderHome(env, again) <==> ':' !in env.home.value
  {
    var h := env.home.value;
    assert h + ":" == h + [':'] + "";
    BeforeMore(h, "");
    if UnderHome(env, again) {
      UnderHasNoColon(h, Before(again, ':'));
    }
  }

  /** What the daemon is told: the home share's volume, and those outside. */
  lemma AgainParts(env: Env, outside: seq<string>, vs: seq<Volume>)
    requires Volumes(env, HomeSpec(env) + outside) == Some(vs)
    requires forall s <- outside :: !UnderHome(env, s)
    ensures var again, n := DaemonVolumes(Tagged(vs)), |HomeSpec(env)|;
            && |again| == |vs| == n + |outside|
            && (forall s <- again[n..] :: !UnderHome(env, s))
            && (n == 1 ==> (UnderHome(env, again[0]) <==> ':' !in env.home.value))
  {
    hide ReadSpec, DaemonVolumes, Tagged, Volumes, Before, Under, UnderHome, HomeSpec;
    var again, n := DaemonVolumes(Tagged(vs)), |HomeSpec(env)|;
    var specs := HomeSpec(env) + outside;
    ReadBack(env, specs, vs);
    forall s <- again[n..]
      ensures !UnderHome(env, s)
    {
      var k :| n <= k < |again| && again[k] == s;
      assert specs[k] in outside;
      SameBefore(env, again[k], specs[k]);
    }
    HomeSpecFirst(env, outside);
    if n == 1 {
      HomeSpecUnder(env, again[0]);
    }
  }

  lemma SameBefore(env: Env, a: string, b: string)
    requires Before(a, ':') == Before(b, ':')
    ensures UnderHome(env, a) == UnderHome(env, b)
  {
  }

  lemma DaemonVolumesHead(s: Share, shares: seq<Share>)
    ensures DaemonVolumes([s] + shares) == [ShareSpec(s)] + DaemonVolumes(shares)
  {
  }

  lemma VolumesSplit(env: Env, a: seq<string>, b: seq<string>, vs: seq<Volume>)
    requires Volumes(env, a + b) == Some(vs)
    ensures Volumes(env, a) == Some(vs[..|a|]) && Volumes(env, b) == Some(vs[|a|..])
  {
    VolumesAppend(env, a, b);
    var x, y := Volumes(env, a).value, Volumes(env, b).value;
    hide Volumes;
    assert (x + y)[..|a|] == x && (x + y)[|a|..] == y;
  }

  /** What is in the daemon's list besides HOME: the volumes share again when its directory is not
      under HOME, HOME again when it contains a colon, and the parent's volumes outside HOME. */
  function Asked(env: Env, volumes: seq<string>): seq<string> {
    Outside(env, [ShareSpec(VolumesShare(env))])
    + ((if env.home.Some? && ':' in env.home.value then HomeSpec(env) else [])
       + Outside(env, Given(env, volumes)))
  }

  /** The daemon never finds the home spec first: the volumes share's spec is. */
  lemma NotGiven(env: Env, rest: seq<string>)
    ensures Given(env, [ShareSpec(VolumesShare(env))] + rest) == [ShareSpec(VolumesShare(env))] + rest
  {
    VolumesShareSpec(env);
    hide ShareSpec;
  }

  lemma SameReadings(env: Env, h: seq<string>, o: seq<string>, f: seq<string>, f': seq<string>,
                     r: seq<string>, r': seq<string>)
    requires Volumes(env, f) == Volumes(env, f') && Volumes(env, r) == Volumes(env, r')
    ensures Listed(env, h + (o + (f + r))) == Listed(env, h + (o + (f' + r')))
  {
    VolumesAppend(env, f, r);
    VolumesAppend(env, f', r');
    VolumesAppend(env, o, f + r);
    VolumesAppend(env, o, f' + r');
    VolumesAppend(env, h, o + (f + r));
    VolumesAppend(env, h, o + (f' + r'));
    hide Volumes, Tagged;
  }

  /** HOME's own part of the daemon's arguments counts again only when HOME contains a colon. */
  lemma HomePartAgain(env: Env, again: seq<string>)
    requires |again| == |HomeSpec(env)|
    requires env.home.Some? ==> (UnderHome(env, again[0]) <==> ':' !in env.home.value)
    requires Volumes(env, again) == Volumes(env, HomeSpec(env))
    ensures Volumes(env, Outside(env, again))
         == Volumes(env, if env.home.Some? && ':' in env.home.value then HomeSpec(env) else [])
  {
    HomeSpecFirst(env, []);
    if env.home.Some? {
      assert again == [again[0]];
      OutsideOne(env, again[0]);
    }
    hide Volumes, UnderHome;
  }

  /** The daemon's list, in every environment. */
  lemma DaemonReads(env: Env, volumes: seq<string>)
    requires ShareList(env, volumes).Some?
    ensures ShareList(env, DaemonVolumes(ShareList(env, volumes).value))
         == Listed(env, HomeSpec(env) + Asked(env, volumes))
  {
    hide Volumes, DaemonVolumes, Tagged, Effective, ShareSpec, ShareList, UnderHome, Under, HomeSpec, VolumesShare,
         Outside, Given, Listed;
    var own := ShareSpec(VolumesShare(env));
    var outside, vs := OwnList(env, volumes);
    OwnOutside(env, volumes, outside, vs);
    var again, n := DaemonVolumes(Tagged(vs)), |HomeSpec(env)|;
    DaemonVolumesHead(VolumesShare(env), Tagged(vs));
    ListOf(env, [own] + again);
    NotGiven(env, again);
    AgainParts(env, outside, vs);
    HomeSpecFirst(env, outside);
    assert again == again[..n] + again[n..];
    EffectiveOf(env, own, again[..n], again[n..]);
    ReadBack(env, HomeSpec(env) + outside, vs);
    VolumesSplit(env, HomeSpec(env), outside, vs);
    VolumesSplit(env, again[..n], again[n..], vs);
    HomePartAgain(env, again[..n]);
    SameReadings(env, HomeSpec(env), Outside(env, [own]), Outside(env, again[..n]),
                 if env.home.Some? && ':' in env.home.value then HomeSpec(env) else [],
                 again[n..], outside);
  }

  lemma OwnOutside(env: Env, volumes: seq<string>, outside: seq<string>, vs: seq<Volume>)
    requires outside == Outside(env, Given(env, volumes))
    ensures Asked(env, volumes)
         == Outside(env, [ShareSpec(VolumesShare(env))])
            + ((if env.home.Some? && ':' in env.home.value then HomeSpec(env) else []) + outside)
  {
  }

  // ---- Who passes ------------------------------------------------------------------------

  /** In every environment a later process passes the check of a running daemon exactly when its
      volumes outside HOME say, in the same order, what is asked of it. */
  lemma PassesExactly(env: Env, volumes: seq<string>, later: seq<string>)
    requires ShareList(env, volumes).Some?
    ensures Passes(ShareList(env, DaemonVolumes(ShareList(env, volumes).value)), ShareList(env, later))
            <==> SaySame(env, Asked(env, volumes), Outside(env, Given(env, later)))
  {
    DaemonReads(env, volumes);
    ListOf(env, later);
    HomeIsRead(env, volumes);
    PassesBySpecs(env, Asked(env, volumes), Outside(env, Given(env, later)));
    hide Volumes, ShareList, Listed, Passes, Asked, HomeSpec, Given, Outside, SaySame;
  }

  lemma HomeIsRead(env: Env, volumes: seq<string>)
    requires ShareList(env, volumes).Some?
    ensures Volumes(env, HomeSpec(env)).Some?
  {
    hide ShareList, Volumes, Tagged, UnderHome, HomeSpec;
    var outside, vs := OwnList(env, volumes);
    VolumesSplit(env, HomeSpec(env), outside, vs);
  }

  /** While the volumes directory is under HOME, nothing is asked but the volumes outside HOME. */
  lemma AskedUnderHome(env: Env, volumes: seq<string>)
    requires env.home.Some? && Under(env.home.value, Before(env.volumesDir, ':'))
    ensures Asked(env, volumes) == Outside(env, volumes) == Outside(env, Given(env, volumes))
  {
    var own := ShareSpec(VolumesShare(env));
    VolumesShareSpec(env);
    OutsideOne(env, own);
    UnderHasNoColon(env.home.value, Before(env.volumesDir, ':'));
    hide ShareSpec, VolumesShare;
    var h := env.home.value;
    if volumes != [] && volumes[0] == h + ":" {
      HomeSpecUnder(env, volumes[0]);
    }
    hide Under, Before;
    assert [] + ([] + Outside(env, Given(env, volumes))) == Outside(env, Given(env, volumes));
  }

  /** The mount check while the volumes directory is under HOME: a later process passes exactly when
      its volumes outside HOME say the same, in the same order. */
  lemma CheckUnderHome(env: Env, volumes: seq<string>, later: seq<string>)
    requires ShareList(env, volumes).Some?
    requires env.home.Some? && Under(env.home.value, Before(env.volumesDir, ':'))
    ensures Passes(ShareList(env, DaemonVolumes(ShareList(env, volumes).value)), ShareList(env, later))
            <==> SaySame(env, Outside(env, volumes), Outside(env, later))
  {
    PassesExactly(env, volumes, later);
    AskedUnderHome(env, volumes);
    AskedUnderHome(env, later);
    hide Volumes, ShareList, Passes, Asked, Outside, SaySame, DaemonVolumes;
  }

  /** Elsewhere a later process must be given the volumes share itself, first, and then the daemon's
      volumes; the same command line never passes. */
  lemma CheckElsewhere(env: Env, volumes: seq<string>)
    requires ShareList(env, volumes).Some?
    requires !(env.home.Some? && Under(env.home.value, Before(env.volumesDir, ':')))
    ensures Asked(env, volumes)
         == [ShareSpec(VolumesShare(env))]
            + ((if env.home.Some? && ':' in env.home.value then HomeSpec(env) else [])
               + Outside(env, Given(env, volumes)))
    ensures !Passes(ShareList(env, DaemonVolumes(ShareList(env, volumes).value)), ShareList(env, volumes))
  {
    var own := ShareSpec(VolumesShare(env));
    VolumesShareSpec(env);
    OutsideOne(env, own);
    hide ShareSpec, VolumesShare, Volumes, ShareList, Passes, HomeSpec, Given, Outside, DaemonVolumes, Under, Before;
    PassesExactly(env, volumes, volumes);
    assert |Asked(env, volumes)| > |Outside(env, Given(env, volumes))|;
  }

  /** The daemon that is started with a process's own shares rebuilds the same list exactly when the
      volumes directory lies under HOME, and then to the letter; otherwise that share comes back
      twice. */
  lemma DaemonRebuildsList(env: Env, volumes: seq<string>)
    requires ShareList(env, volumes).Some?
    ensures var own := ShareList(env, volumes);
            var running := ShareList(env, DaemonVolumes(own.value));
            var under := env.home.Some? && Under(env.home.value, Before(env.volumesDir, ':'));
            && (Passes(running, own) <==> under)
            && (under ==> running == own)
  {
    DaemonReads(env, volumes);
    ListOf(env, volumes);
    if env.home.Some? && Under(env.home.value, Before(env.volumesDir, ':')) {
      AskedUnderHome(env, volumes);
      ListPasses(ShareList(env, volumes));
    } else {
      CheckElsewhere(env, volumes);
    }
    hide ShareList, Volumes, Passes, DaemonVolumes, Listed, Asked, Under, Before;
  }

  lemma ListPasses(list: Option<seq<Share>>)
    requires list.Some?
    ensures Passes(list, list)
  {
    hide SamePath;
    forall i | 0 <= i < |list.value|
      ensures SameShare(list.value[i], list.value[i])
    {
      SameAsItself(list.value[i].hostPath);
    }
  }

  /** Without any -v the list is the volumes share and HOME. */
  lemma BareList(env: Env)
    requires env.home.Some? && ':' !in env.home.value && env.onDisk(env.home.value)
    ensures ShareList(env, []) == Some([VolumesShare(env)] + Tagged([Volume(env.home.value, "", false)]))
  {
    var h := env.home.value;
    assert Effective(env, []) == [h + ":"];
    assert h + ":" == h + [':'] + "";
    Splits(h, ':', "");
    hide ReadSpec;
    VolumesFromParts(env, [h + ":"], [Volume(h, "", false)]) by {
      SpecTextRead(env, h, "", false);
      assert SpecText(h, "", false) == h + ":";
    }
  }

  /** A data directory elsewhere (XDG_DATA_HOME) is enough: the daemon turns away the very command
      that started it. */
  lemma DataElsewhereFails()
    ensures var env := Env(Some("/u"), "/data/volumes", _ => true);
            && ShareList(env, []).Some?
            && !Passes(ShareList(env, DaemonVolumes(ShareList(env, []).value)), ShareList(env, []))
  {
    hide ReadSpec, Volumes, Outside, Tagged, DaemonVolumes, ShareList, Passes;
    var env := Env(Some("/u"), "/data/volumes", _ => true);
    BareList(env);
    DaemonRebuildsList(env, []);
    assert "/data/volumes"[1] != "/u/"[1];
    assert Before("/data/volumes", ':') <= "/data/volumes";
  }

  /** One volume outside HOME, written with and without a slash at the end, is the same to the check
      although the lists differ as text. */
  lemma TrailingSlashPasses(env: Env, path: string, container: string)
    requires env.home.Some? && Under(env.home.value, Before(env.volumesDir, ':'))
    requires path != "" && ':' !in path && ':' !in container && env.onDisk(path) && env.onDisk(path + "/")
    requires !Under(env.home.value, path) && !Under(env.home.value, path + "/")
    requires ShareList(env, [SpecText(path, container, false)]).Some?
    ensures var volumes, later := [SpecText(path, container, false)], [SpecText(path + "/", container, false)];
            var running := ShareList(env, DaemonVolumes(ShareList(env, volumes).value));
            Passes(running, ShareList(env, later)) && running != ShareList(env, later)
  {
    hide Volumes, DaemonVolumes, Passes, SamePath, Under, SpecText, Before, ReadSpec, ShareList, UnderHome, Outside;
    var volumes, later := [SpecText(path, container, false)], [SpecText(path + "/", container, false)];
    TrailingSlash(path);
    SamePathIsSymmetric(path + "/", path);
    OneOutside(env, path, container);
    OneOutside(env, path + "/", container);
    CheckUnderHome(env, volumes, later);
    DaemonRebuildsList(env, volumes);
    ListsDiffer(env, volumes, later, Volume(path, container, false), Volume(path + "/", container, false));
  }

  lemma OneOutside(env: Env, path: string, container: string)
    requires ':' !in path && ':' !in container && env.onDisk(path)
    requires env.home.Some? && !Under(env.home.value, path)
    ensures var specs := [SpecText(path, container, false)];
            Outside(env, specs) == specs && Volumes(env, specs) == Some([Volume(path, container, false)])
  {
    var spec := SpecText(path, container, false);
    SpecTextRead(env, path, container, false);
    OutsideOne(env, spec);
    hide ReadSpec, SpecText, Before;
    VolumesFromParts(env, [spec], [Volume(path, container, false)]);
  }

  lemma SamePathIsSymmetric(a: string, b: string)
    requires SamePath(a, b)
    ensures SamePath(b, a)
  {
  }

  lemma ListsDiffer(env: Env, volumes: seq<string>, later: seq<string>, a: Volume, b: Volume)
    requires Volumes(env, volumes) == Some([a]) && Volumes(env, later) == Some([b]) && a != b
    requires Outside(env, volumes) == volumes && Outside(env, later) == later
    requires env.home.Some? && Under(env.home.value, Before(env.volumesDir, ':'))
    requires ShareList(env, volumes).Some?
    ensures ShareList(env, volumes) != ShareList(env, later)
  {
    ListOf(env, volumes);
    ListOf(env, later);
    AskedUnderHome(env, volumes);
    AskedUnderHome(env, later);
    VolumesAppend(env, HomeSpec(env), volumes);
    VolumesAppend(env, HomeSpec(env), later);
    hide Volumes, ShareList, Outside, Under, Before, HomeSpec, VolumesShare, Asked, Tagged;
    var h := Volumes(env, HomeSpec(env)).value;
    assert (h + [a])[|h|] == a && (h + [b])[|h|] == b;
    if ShareList(env, volumes) == ShareList(env, later) {
      SameTags(h + [a], h + [b], VolumesShare(env));
    }
  }
}
