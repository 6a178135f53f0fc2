/** Volume specs and the shares they become: in the process that reads the command line, in the
    daemon it spawns with the same shares as arguments, and in the guest's mount paths. */
module Shares {
  import opened Text
  import opened Wrappers

  datatype Share = Share(hostPath: string, tag: string, readOnly: bool, containerPath: string)

  /** The environment: HOME, this profile's volumes directory, and which host paths exist. */
  datatype Env = Env(home: Option<string>, volumesDir: string, onDisk: string -> bool)

  // ---- Specs -----------------------------------------------------------------------------

  function SplitN3(spec: string): (parts: seq<string>)
    ensures 1 <= |parts| <= 3
  {
    if ':' !in spec then [spec]
    else
      var rest := After(spec, ':');
      if ':' !in rest then [Before(spec, ':'), rest]
      else [Before(spec, ':'), Before(rest, ':'), After(rest, ':')]
  }

  /** What a spec says: host path, container path, read-only. */
  datatype Volume = Volume(host: string, container: string, readOnly: bool)

  /** None when the process gives up: no container part, or no such host path. */
  function ReadSpec(env: Env, spec: string): Option<Volume> {
    var parts := SplitN3(spec);
    if |parts| < 2 || !env.onDisk(parts[0]) then None
    else Some(Volume(parts[0], parts[1], |parts| > 2 && parts[2] == "ro"))
  }

  function SpecText(host: string, container: string, readOnly: bool): string {
    host + [':'] + container + if readOnly then ":ro" else ""
  }

  /** A volume that was read from a spec is read again from its own text: neither path can hold a
      colon. */
  lemma SpecRoundTrip(env: Env, spec: string)
    requires ReadSpec(env, spec).Some?
    ensures var v := ReadSpec(env, spec).value;
            && Before(SpecText(v.host, v.container, v.readOnly), ':') == v.host == Before(spec, ':')
            && ReadSpec(env, SpecText(v.host, v.container, v.readOnly)) == Some(v)
  {
    var v := ReadSpec(env, spec).value;
    SpecTextRead(env, v.host, v.container, v.readOnly);
  }

  lemma SpecTextRead(env: Env, host: string, container: string, readOnly: bool)
    requires ':' !in host && ':' !in container
    ensures Before(SpecText(host, container, readOnly), ':') == host
    ensures ReadSpec(env, SpecText(host, container, readOnly))
         == if env.onDisk(host) then Some(Volume(host, container, readOnly)) else None
  {
    var t := SpecText(host, container, readOnly);
    var rest := container + if readOnly then ":ro" else "";
    assert t == host + [':'] + rest;
    Splits(host, ':', rest);
    if readOnly {
      assert rest == container + [':'] + "ro";
      Splits(container, ':', "ro");
    } else {
      assert rest == container;
    }
  }

  /** Tags are given by position. */
  function Tag(i: nat): string {
    "share" + Digits(i)
  }

  /** What all the specs say, unless the process gives up. */
  function Volumes(env: Env, specs: seq<string>): (vs: Option<seq<Volume>>)
    ensures vs.Some? ==> |vs.value| == |specs|
                         && forall k :: 0 <= k < |specs| ==> ReadSpec(env, specs[k]) == Some(vs.value[k])
  {
    if specs == [] then Some([])
    else match ReadSpec(env, specs[0])
      case None => None
      case Some(v) =>
        match Volumes(env, specs[1..])
        case None => None
        case Some(more) => Some([v] + more)
  }

  function Tagged(vs: seq<Volume>): (shares: seq<Share>)
    ensures |shares| == |vs|
  {
    seq(|vs|, i requires 0 <= i < |vs| => Share(vs[i].host, Tag(i), vs[i].readOnly, vs[i].container))
  }

  function ParseVolumes(env: Env, specs: seq<string>): Option<seq<Share>> {
    match Volumes(env, specs)
    case None => None
    case Some(vs) => Some(Tagged(vs))
  }

  // ---- The shares of one process ---------------------------------------------------------

  predicate Under(home: string, path: string) {
    path == home || home + "/" <= path
  }

  predicate UnderHome(env: Env, spec: string) {
    env.home.Some? && Under(env.home.value, Before(spec, ':'))
  }

  function Outside(env: Env, specs: seq<string>): seq<string> {
    if specs == [] then []
    else (if UnderHome(env, specs[0]) then [] else [specs[0]]) + Outside(env, specs[1..])
  }

  function HomeSpec(env: Env): seq<string> {
    match env.home case None => [] case Some(h) => [h + ":"]
  }

  /** HOME first, then what lies outside it. */
  function Effective(env: Env, volumes: seq<string>): seq<string> {
    HomeSpec(env) + Outside(env, volumes)
  }

  lemma {:induction false} OutsideAppend(env: Env, a: seq<string>, b: seq<string>)
    ensures Outside(env, a + b) == Outside(env, a) + Outside(env, b)
  {
    if a == [] {
      assert a + b == b;
    } else {
      assert (a + b)[1..] == a[1..] + b;
      OutsideAppend(env, a[1..], b);
    }
  }

  /** The volumes without a home spec in front. */
  function Given(env: Env, volumes: seq<string>): seq<string> {
    if env.home.Some? && volumes != [] && volumes[0] == env.home.value + ":" then volumes[1..] else volumes
  }

  /** With a home spec first in the list the home share is kept, else it is put in front; unless
      HOME itself contains a colon the two come to the same. */
  method BuildVirtiofsShares(env: Env, volumes: seq<string>) returns (shares: Option<seq<Share>>)
    ensures shares == ParseVolumes(env, Effective(env, Given(env, volumes)))
  {
    hide Before, Under, ParseVolumes, HomeSpec, Given, Outside;
    GivenStarts(env, volumes);
    var homePresent := env.home.Some? && volumes != [] && volumes[0] == env.home.value + ":";
    var effective: seq<string>;
    var start := 0;
    if homePresent {
      effective, start := [volumes[0]], 1;
    } else {
      effective := HomeSpec(env);
    }
    assert volumes[start..start] == [];
    for i := start to |volumes|
      invariant effective == HomeSpec(env) + Outside(env, volumes[start..i])
    {
      assert volumes[start..i + 1] == volumes[start..i] + [volumes[i]];
      OutsideAppend(env, volumes[start..i], [volumes[i]]);
      OutsideOne(env, volumes[i]);
      if !UnderHome(env, volumes[i]) {
        effective := effective + [volumes[i]];
      }
    }
    assert volumes[start..|volumes|] == volumes[start..];
    shares := ParseVolumes(env, effective);
  }

  lemma GivenStarts(env: Env, volumes: seq<string>)
    ensures Outside(env, []) == [] && HomeSpec(env) + [] == HomeSpec(env)
    ensures env.home.Some? && volumes != [] && volumes[0] == env.home.value + ":" ==>
              HomeSpec(env) == [volumes[0]] && Given(env, volumes) == volumes[1..]
    ensures !(env.home.Some? && volumes != [] && volumes[0] == env.home.value + ":") ==>
              Given(env, volumes) == volumes[0..]
  {
  }

  const VOLUMES_TAG := "pelagos-volumes"
  const VOLUMES_PATH := "/var/lib/pelagos/volumes"

  function VolumesShare(env: Env): Share {
    Share(env.volumesDir, VOLUMES_TAG, false, VOLUMES_PATH)
  }

  /** The share list of a process that was given these volumes; None when it gives up. */
  function ShareList(env: Env, volumes: seq<string>): Option<seq<Share>> {
    match ParseVolumes(env, Effective(env, Given(env, volumes)))
    case None => None
    case Some(shares) => Some([VolumesShare(env)] + shares)
  }

  function ShareSpec(s: Share): string {
    SpecText(s.hostPath, s.containerPath, s.readOnly)
  }

  /** The volumes that the daemon subprocess is started with. */
  function DaemonVolumes(shares: seq<Share>): seq<string> {
    seq(|shares|, i requires 0 <= i < |shares| => ShareSpec(shares[i]))
  }

  /** The volume part of the subprocess's arguments. */
  method DaemonSubprocessArgs(shares: seq<Share>) returns (args: seq<string>)
    ensures |args| == 2 * |shares|
    ensures forall i :: 0 <= i < |shares| ==>
              args[2 * i] == "--volume" && args[2 * i + 1] == DaemonVolumes(shares)[i]
  {
    args := [];
    for k := 0 to |shares|
      invariant |args| == 2 * k
      invariant forall i :: 0 <= i < k ==> args[2 * i] == "--volume" && args[2 * i + 1] == ShareSpec(shares[i])
    {
      var spec := shares[k].hostPath + [':'] + shares[k].containerPath;
      if shares[k].readOnly {
        spec := spec + ":ro";
      }
      assert spec == ShareSpec(shares[k]);
      args := args + ["--volume"];
      args := args + [spec];
    }
  }

  // ---- Specs read again ------------------------------------------------------------------

  lemma {:induction false} VolumesFromParts(env: Env, specs: seq<string>, vs: seq<Volume>)
    requires |specs| == |vs| && forall k :: 0 <= k < |specs| ==> ReadSpec(env, specs[k]) == Some(vs[k])
    ensures Volumes(env, specs) == Some(vs)
  {
    hide ReadSpec;
    if specs != [] {
      assert ReadSpec(env, specs[0]) == Some(vs[0]);
      VolumesFromParts(env, specs[1..], vs[1..]);
      assert vs == [vs[0]] + vs[1..];
    }
  }

  lemma TaggedInjective(a: seq<Volume>, b: seq<Volume>)
    requires Tagged(a) == Tagged(b)
    ensures a == b
  {
    var (s, t) := (Tagged(a), Tagged(b));
    assert forall k :: 0 <= k < |a| ==> a[k] == Volume(s[k].hostPath, s[k].containerPath, s[k].readOnly);
    assert forall k :: 0 <= k < |b| ==> b[k] == Volume(t[k].hostPath, t[k].containerPath, t[k].readOnly);
  }

  lemma SameTags(a: seq<Volume>, b: seq<Volume>, share: Share)
    requires [share] + Tagged(a) == [share] + Tagged(b)
    ensures a == b
  {
    assert Tagged(a) == ([share] + Tagged(a))[1..] == ([share] + Tagged(b))[1..] == Tagged(b);
    TaggedInjective(a, b);
  }

  /** The specs of a process's own shares say what its effective specs said. */
  lemma ReadBack(env: Env, specs: seq<string>, vs: seq<Volume>)
    requires Volumes(env, specs) == Some(vs)
    ensures Volumes(env, DaemonVolumes(Tagged(vs))) == Some(vs)
    ensures forall k :: 0 <= k < |vs| ==> Before(DaemonVolumes(Tagged(vs))[k], ':') == Before(specs[k], ':')
  {
    var again := DaemonVolumes(Tagged(vs));
    forall k | 0 <= k < |vs|
      ensures ReadSpec(env, again[k]) == Some(vs[k]) && Before(again[k], ':') == Before(specs[k], ':')
    {
      SpecRoundTrip(env, specs[k]);
    }
    VolumesFromParts(env, again, vs);
  }

  lemma {:induction false} OutsideIsOutside(env: Env, specs: seq<string>)
    ensures forall s <- Outside(env, specs) :: !UnderHome(env, s)
  {
    if specs != [] {
      OutsideIsOutside(env, specs[1..]);
    }
  }

  lemma {:induction false} AllOutside(env: Env, specs: seq<string>)
    requires forall s <- specs :: !UnderHome(env, s)
    ensures Outside(env, specs) == specs
  {
    if specs != [] {
      AllOutside(env, specs[1..]);
    }
  }

  lemma {:induction false} BeforeMore(a: string, b: string)
    ensures Before(a + [':'] + b, ':') == Before(a, ':')
  {
    if a == [] {
      assert a + [':'] + b == [':'] + b;
    } else {
      assert (a + [':'] + b)[1..] == a[1..] + [':'] + b;
      BeforeMore(a[1..], b);
    }
  }

  lemma UnderHasNoColon(home: string, path: string)
    requires Under(home, path) && ':' !in path
    ensures ':' !in home
  {
    assert home <= path;
    assert forall i :: 0 <= i < |home| ==> home[i] == path[i];
  }

  lemma OutsideOne(env: Env, s: string)
    ensures Outside(env, [s]) == if UnderHome(env, s) then [] else [s]
  {
  }

  lemma HomeSpecFirst(env: Env, outside: seq<string>)
    ensures |HomeSpec(env)| <= 1 && (|HomeSpec(env)| == 1 <==> env.home.Some?)
    ensures env.home.Some? ==> (HomeSpec(env) + outside)[0] == env.home.value + ":"
                               && HomeSpec(env) == [(HomeSpec(env) + outside)[0]]
  {
  }

  lemma OwnList(env: Env, volumes: seq<string>) returns (outside: seq<string>, vs: seq<Volume>)
    requires ShareList(env, volumes).Some?
    ensures outside == Outside(env, Given(env, volumes))
    ensures Volumes(env, HomeSpec(env) + outside) == Some(vs)
    ensures forall s <- outside :: !UnderHome(env, s)
    ensures ShareList(env, volumes) == Some([VolumesShare(env)] + Tagged(vs))
  {
    var given := Given(env, volumes);
    outside := Outside(env, given);
    OutsideIsOutside(env, given);
    hide ReadSpec, Volumes, Tagged, UnderHome, Outside, HomeSpec;
    vs := Volumes(env, HomeSpec(env) + outside).value;
  }

  lemma VolumesAppend(env: Env, a: seq<string>, b: seq<string>)
    ensures Volumes(env, a + b)
         == if Volumes(env, a).Some? && Volumes(env, b).Some?
            then Some(Volumes(env, a).value + Volumes(env, b).value) else None
  {
    hide ReadSpec;
    if Volumes(env, a + b).Some? {
      var vs := Volumes(env, a + b).value;
      assert forall k :: 0 <= k < |a| ==> a[k] == (a + b)[k];
      assert forall k :: 0 <= k < |b| ==> b[k] == (a + b)[|a| + k];
      VolumesFromParts(env, a, vs[..|a|]);
      VolumesFromParts(env, b, vs[|a|..]);
      assert vs == vs[..|a|] + vs[|a|..];
    } else if Volumes(env, a).Some? && Volumes(env, b).Some? {
      VolumesFromParts(env, a + b, Volumes(env, a).value + Volumes(env, b).value);
    }
  }
}
