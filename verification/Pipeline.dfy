// From an application's services to containers, pod volumes and claims. Go ranges over a map
// in any order, so every result is stated for all orders.
module Pipeline {
  import opened Resources
  import opened VolumeGrammar
  import opened VolumeParser

  /* ----- Services after parsing ----- */

  type Outcomes = map<string, Result<(Volume, VolumeMount)>>

  // A service with its image read and each of its volume strings parsed, or not.
  datatype Prepared = Prepared(name: string, image: Image, volumes: Outcomes)

  datatype Container = Container(name: string, image: Image, mounts: seq<VolumeMount>)

  function ParseAll(volumes: map<string, string>): (o: Outcomes)
    ensures o.Keys == volumes.Keys && forall id :: id in volumes ==> o[id] == Parse(id, volumes[id])
  {
    map id | id in volumes :: Parse(id, volumes[id])
  }

  function Prepare(s: Service): Prepared {
    Prepared(s.name, ParseImage(s.image), ParseAll(s.volumes))
  }

  function PrepareAll(services: seq<Service>): (r: seq<Prepared>)
    ensures |r| == |services| && forall i :: 0 <= i < |r| ==> r[i] == Prepare(services[i])
  {
    seq(|services|, i requires 0 <= i < |services| => Prepare(services[i]))
  }

  // A volume and its mount bear the id they are listed under, and a pvc volume has its claim.
  ghost predicate Named(o: Outcomes) {
    forall id :: id in o && o[id].Ok? ==>
      && o[id].value.0.name == id && o[id].value.1.name == id
      && (o[id].value.0.scheme.Pvc? ==> "claim" in o[id].value.0.attr)
  }

  lemma ParsedIsNamed(id: string, s: string)
    ensures var r := Parse(id, s);
            r.Ok? ==> r.value.0.name == id && r.value.1.name == id && (r.value.0.scheme.Pvc? ==>
                "claim" in r.value.0.attr)
  {
  }

  lemma ParsedAreNamed(volumes: map<string, string>)
    ensures Named(ParseAll(volumes))
  {
    forall id | id in volumes { ParsedIsNamed(id, volumes[id]); }
  }

  ghost predicate AllNamed(services: seq<Prepared>) {
    forall s :: s in services ==> Named(s.volumes)
  }

  // What holds of every application's services, whatever their volume strings are.
  lemma PreparedAreNamed(services: seq<Service>)
    ensures AllNamed(PrepareAll(services))
  {
    forall s | s in PrepareAll(services) ensures Named(s.volumes) {
      var i :| 0 <= i < |services| && s == Prepare(services[i]);
      ParsedAreNamed(services[i].volumes);
    }
  }

  ghost predicate AllParse(o: Outcomes) {
    forall id :: id in o ==> o[id].Ok?
  }

  /* ----- One service's volumes ----- */

  datatype Filled = Filled(sources: map<string, Volume>, mounts: Option<seq<VolumeMount>>)

  function FillOne(o: Outcomes, id: string, f: Filled): Filled
    requires id in o
  {
    if f.mounts.None? then f
    else
      match o[id]
      case Err(_) => Filled(f.sources, None)
      case Ok((volume, mount)) =>
        Filled(if id in f.sources then f.sources else f.sources[id := volume], Some(f.mounts.value + [mount]))
  }

  // The volumes of one service, taken in `order`, filling the shared map of sources; the first
  // string that does not parse ends it.
  function Fill(o: Outcomes, order: seq<string>, sources: map<string, Volume>): Filled
    requires forall id :: id in order ==> id in o
  {
    if order == [] then Filled(sources, Some([]))
    else
      var n := |order| - 1;
      FillOne(o, order[n], Fill(o, order[..n], sources))
  }

  class SourceMap {
    var m: map<string, Volume>

    constructor ()
      ensures m == map[]
    {
      m := map[];
    }
  }

  lemma TakeOne(order: seq<string>, all: set<string>, rest: set<string>, id: string)
    requires rest <= all && id in all - rest && Enumerates(order, all - (rest + {id}))
    ensures Enumerates(order + [id], all - rest)
  {
    assert all - (rest + {id}) + {id} == all - rest;
  }

  lemma FillSnoc(o: Outcomes, order: seq<string>, id: string, sources: map<string, Volume>)
    requires id in o && forall x :: x in order ==> x in o
    ensures Fill(o, order + [id], sources) == FillOne(o, id, Fill(o, order, sources))
  {
    assert (order + [id])[..|order|] == order;
  }

  lemma {:induction false} StuckOnFailure(o: Outcomes, order: seq<string>, more: seq<string>,
                                          sources: map<string, Volume>)
    requires (forall id :: id in order ==> id in o) && (forall id :: id in more ==> id in o)
    requires Fill(o, order, sources).mounts.None?
    ensures Fill(o, order + more, sources) == Fill(o, order, sources)
  {
    if more == [] {
      assert order + more == order;
    } else {
      var n := |more| - 1;
      StuckOnFailure(o, order, more[..n], sources);
      assert order + more == (order + more[..n]) + [more[n]];
      FillSnoc(o, order + more[..n], more[n], sources);
    }
  }

  // An order that begins with the volumes taken up to the one that failed.
  lemma FailedOrder(o: Outcomes, taken: seq<string>, rest: set<string>,
                    sources: map<string, Volume>) returns (order: seq<string>)
    requires rest <= o.Keys && Enumerates(taken, o.Keys - rest)
    requires Fill(o, taken, sources).mounts.None?
    ensures Enumerates(order, o.Keys)
    ensures Fill(o, order, sources) == Fill(o, taken, sources)
  {
    var tail := SomeOrder(rest);
    order := taken + tail;
    StuckOnFailure(o, taken, tail, sources);
    EnumeratesAppend(taken, o.Keys - rest, tail, rest);
    assert o.Keys - rest + rest == o.Keys;
  }

  method TransformVolumes(volumes: map<string, string>, sources: SourceMap)
    returns (mounts: Option<seq<VolumeMount>>, ghost order: seq<string>)
    modifies sources
    ensures Enumerates(order, volumes.Keys)
    ensures Filled(sources.m, mounts) == Fill(ParseAll(volumes), order, old(sources.m))
  {
    ghost var o := ParseAll(volumes);
    var details := [];
    order := [];
    var rest := volumes.Keys;
    while rest != {}
      invariant rest <= volumes.Keys && Enumerates(order, volumes.Keys - rest)
      invariant Filled(sources.m, Some(details)) == Fill(o, order, old(sources.m))
      decreases rest
    {
      var id :| id in rest;
      var r := ProcessVolume(id, volumes[id]);
      rest := rest - {id};
      FillSnoc(o, order, id, old(sources.m));
      TakeOne(order, volumes.Keys, rest, id);
      order := order + [id];
      if r.Err? {
        order := FailedOrder(o, order, rest, old(sources.m));
        return None, order;
      }
      if id !in sources.m {
        sources.m := sources.m[id := r.value.0];
      }
      details := details + [r.value.1];
    }
    mounts := Some(details);
  }

  // Existing sources stay; a volume that parses and has no source yet brings its own.
  ghost function Merge(sources: map<string, Volume>, o: Outcomes): map<string, Volume>
    requires AllParse(o)
  {
    map id | id in sources.Keys + o.Keys :: if id in sources then sources[id] else o[id].value.0
  }

  ghost function MountsOf(o: Outcomes): set<VolumeMount>
    requires AllParse(o)
  {
    set id | id in o :: o[id].value.1
  }

  // What filling does to the map, in any order and even when it fails midway: no source that is
  // there changes, and any source it adds is that of a volume it took.
  lemma {:induction false} FillSources(o: Outcomes, order: seq<string>, sources: map<string, Volume>)
    requires forall id :: id in order ==> id in o
    ensures var f := Fill(o, order, sources).sources;
            && sources.Keys <= f.Keys <= sources.Keys + Elements(order)
            && (forall id :: id in sources ==> f[id] == sources[id])
            && (forall id :: id in f && id !in sources ==> o[id].Ok? && f[id] == o[id].value.0)
  {
    if order != [] {
      var n := |order| - 1;
      FillSources(o, order[..n], sources);
    }
  }

  // It succeeds if all the strings taken parse ...
  lemma {:induction false} FillSucceedsIff(o: Outcomes, order: seq<string>, sources: map<string, Volume>)
    requires forall id :: id in order ==> id in o
    ensures Fill(o, order, sources).mounts.Some? <==> forall id :: id in order ==> o[id].Ok?
  {
    if order != [] {
      var n := |order| - 1;
      FillSucceedsIff(o, order[..n], sources);
      assert order == order[..n] + [order[n]];
      assert forall id :: id in order <==> id in order[..n] || id == order[n];
    }
  }

  // ... and then gives each of them a source and its mount.
  lemma {:induction false} FillMounts(o: Outcomes, order: seq<string>, sources: map<string, Volume>)
    requires forall id :: id in order ==> id in o
    requires Fill(o, order, sources).mounts.Some?
    ensures Elements(order) <= Fill(o, order, sources).sources.Keys
    ensures |Fill(o, order, sources).mounts.value| == |order|
    ensures forall i :: 0 <= i < |order| ==>
        o[order[i]].Ok? && Fill(o, order, sources).mounts.value[i] == o[order[i]].value.1
  {
    if order == [] {
      assert Elements(order) == {};
    } else {
      var n := |order| - 1;
      FillMounts(o, order[..n], sources);
    }
  }

  lemma FillMerges(o: Outcomes, order: seq<string>, sources: map<string, Volume>)
    requires AllParse(o) && Enumerates(order, o.Keys)
    requires Elements(order) <= Fill(o, order, sources).sources.Keys
    ensures Fill(o, order, sources).sources == Merge(sources, o)
  {
    FillSources(o, order, sources);
    assert Elements(order) == o.Keys;
    var f, m := Fill(o, order, sources).sources, Merge(sources, o);
    assert f.Keys == m.Keys;
    forall id | id in f ensures f[id] == m[id] {}
  }

  lemma {:induction false} DistinctIsSet<T>(s: seq<T>)
    requires forall i, j :: 0 <= i < j < |s| ==> s[i] != s[j]
    ensures multiset(s) == multiset(Elements(s))
  {
    if s == [] {
      assert Elements(s) == {};
    } else {
      var n := |s| - 1;
      DistinctIsSet(s[..n]);
      assert s == s[..n] + [s[n]];
    }
  }

  lemma MountsAreExact(o: Outcomes, order: seq<string>, mounts: seq<VolumeMount>)
    requires Named(o) && AllParse(o) && Enumerates(order, o.Keys) && |mounts| == |order|
    requires forall i :: 0 <= i < |order| ==> mounts[i] == o[order[i]].value.1
    ensures multiset(mounts) == multiset(MountsOf(o))
  {
    forall i, j | 0 <= i < j < |mounts| ensures mounts[i] != mounts[j] {
      assert mounts[i].name == order[i] && mounts[j].name == order[j];
    }
    DistinctIsSet(mounts);
    forall m ensures m in mounts <==> m in MountsOf(o) {
      if m in MountsOf(o) {
        var id :| id in o && m == o[id].value.1;
        var i :| 0 <= i < |order| && order[i] == id;
        assert mounts[i] == m;
      }
    }
    assert Elements(mounts) == MountsOf(o);
  }

  lemma FillWhenAllParse(o: Outcomes, order: seq<string>, sources: map<string, Volume>)
    requires Named(o) && AllParse(o) && Enumerates(order, o.Keys)
    ensures Fill(o, order, sources).sources == Merge(sources, o)
    ensures Fill(o, order, sources).mounts.Some?
    ensures multiset(Fill(o, order, sources).mounts.value) == multiset(MountsOf(o))
  {
    FillSucceedsIff(o, order, sources);
    FillMounts(o, order, sources);
    FillMerges(o, order, sources);
    MountsAreExact(o, order, Fill(o, order, sources).mounts.value);
  }

  lemma {:induction false} FirstIsFilled(o: Outcomes, first: string, rest: seq<string>, sources: map<string, Volume>)
    requires first in o && o[first].Ok? && forall id :: id in rest ==> id in o
    ensures first in Fill(o, [first] + rest, sources).sources
  {
    if rest == [] {
      assert [first] + rest == [] + [first];
      FillSnoc(o, [], first, sources);
    } else {
      var n := |rest| - 1;
      assert [first] + rest == ([first] + rest[..n]) + [rest[n]];
      FirstIsFilled(o, first, rest[..n], sources);
      FillSnoc(o, [first] + rest[..n], rest[n], sources);
    }
  }

  // A service that is skipped leaves nothing behind in the map of sources, in whatever order
  // its volumes are taken, exactly if each of its volumes that does parse has a source already.
  lemma SkippedServiceLeavesNothingIff(o: Outcomes, sources: map<string, Volume>)
    requires !AllParse(o)
    ensures (forall order :: Enumerates(order, o.Keys) ==> Fill(o, order, sources).sources == sources)
            <==> (forall id :: id in o && o[id].Ok? ==> id in sources)
  {
    if forall id :: id in o && o[id].Ok? ==> id in sources {
      forall order | Enumerates(order, o.Keys) ensures Fill(o, order, sources).sources == sources {
        FillSources(o, order, sources);
      }
    }
    if stray :| stray in o && o[stray].Ok? && stray !in sources {
      var rest := SomeOrder(o.Keys - {stray});
      FirstIsFilled(o, stray, rest, sources);
      assert Enumerates([stray] + rest, o.Keys);
    }
  }

  /* ----- All services ----- */

  datatype AppFilled = AppFilled(sources: map<string, Volume>, containers: seq<Container>)

  ghost predicate Orders(services: seq<Prepared>, orders: seq<seq<string>>) {
    |orders| == |services| && forall i :: 0 <= i < |services| ==> Enumerates(orders[i], services[i].volumes.Keys)
  }

  ghost function FillService(s: Prepared, order: seq<string>, before: AppFilled): AppFilled
    requires Enumerates(order, s.volumes.Keys)
  {
    var f := Fill(s.volumes, order, before.sources);
    AppFilled(f.sources,
              if f.mounts.None? then before.containers
              else before.containers + [Container(s.name, s.image, f.mounts.value)])
  }

  ghost function FillApp(services: seq<Prepared>, orders: seq<seq<string>>): AppFilled
    requires Orders(services, orders)
  {
    if services == [] then AppFilled(map[], [])
    else
      var n := |services| - 1;
      FillService(services[n], orders[n], FillApp(services[..n], orders[..n]))
  }

  lemma FillAppSnoc(services: seq<Prepared>, orders: seq<seq<string>>, i: nat, order: seq<string>)
    requires i < |services| && Orders(services[..i], orders) && Enumerates(order, services[i].volumes.Keys)
    ensures Orders(services[..i + 1], orders + [order])
    ensures FillApp(services[..i + 1], orders + [order])
        == FillService(services[i], order, FillApp(services[..i], orders))
  {
    assert services[..i + 1][..i] == services[..i] && (orders + [order])[..i] == orders;
  }

  method TransformApp(services: seq<Service>)
    returns (containers: seq<Container>, sources: SourceMap, ghost orders: seq<seq<string>>)
    ensures fresh(sources)
    ensures Orders(PrepareAll(services), orders)
    ensures AppFilled(sources.m, containers) == FillApp(PrepareAll(services), orders)
  {
    ghost var prepared := PrepareAll(services);
    containers := [];
    sources := new SourceMap();
    orders := [];
    for i := 0 to |services|
      invariant fresh(sources) && |orders| == i
      invariant Orders(prepared[..i], orders)
      invariant AppFilled(sources.m, containers) == FillApp(prepared[..i], orders)
    {
      var mounts, order := TransformVolumes(services[i].volumes, sources);
      FillAppSnoc(prepared, orders, i, order);
      orders := orders + [order];
      if mounts.None? {
        continue;
      }
      var image := ProcessImageAndOptions(services[i].image);
      containers := containers + [Container(services[i].name, image, mounts.value)];
    }
    assert prepared[..|services|] == prepared;
  }

  ghost function Kept(services: seq<Prepared>): seq<Prepared> {
    if services == [] then []
    else
      var n := |services| - 1;
      Kept(services[..n]) + if AllParse(services[n].volumes) then [services[n]] else []
  }

  lemma {:induction false} KeptAreThose(services: seq<Prepared>)
    ensures forall s :: s in Kept(services) <==> s in services && AllParse(s.volumes)
  {
    if services != [] {
      var n := |services| - 1;
      assert services == services[..n] + [services[n]];
      KeptAreThose(services[..n]);
    }
  }

  ghost predicate ContainerFor(c: Container, s: Prepared) {
    && AllParse(s.volumes)
    && c.name == s.name && c.image == s.image
    && multiset(c.mounts) == multiset(MountsOf(s.volumes))
  }

  ghost predicate ContainersFor(cs: seq<Container>, services: seq<Prepared>) {
    |cs| == |services| && forall i :: 0 <= i < |cs| ==> ContainerFor(cs[i], services[i])
  }

  ghost predicate Mounts(c: Container, id: string) {
    exists m :: m in c.mounts && m.name == id
  }

  ghost predicate MountedBy(cs: seq<Container>, id: string) {
    exists i :: 0 <= i < |cs| && Mounts(cs[i], id)
  }

  ghost predicate EveryServiceParses(services: seq<Prepared>) {
    forall s :: s in services ==> AllParse(s.volumes)
  }

  lemma MountNames(c: Container, s: Prepared, id: string)
    requires Named(s.volumes) && ContainerFor(c, s)
    ensures Mounts(c, id) <==> id in s.volumes
  {
    assert forall m :: m in c.mounts <==> m in multiset(c.mounts);
    if id in s.volumes {
      assert s.volumes[id].value.1 in MountsOf(s.volumes);
    }
  }

  lemma MountIntegrityStep(s: Prepared, order: seq<string>, before: AppFilled)
    requires Named(s.volumes) && Enumerates(order, s.volumes.Keys)
    ensures var after := FillService(s, order, before);
            && before.sources.Keys <= after.sources.Keys
            && (AllParse(s.volumes) ==>
                  && |after.containers| == |before.containers| + 1
                  && after.containers[..|before.containers|] == before.containers
                  && ContainerFor(after.containers[|before.containers|], s)
                  && forall id :: Mounts(after.containers[|before.containers|], id) ==> id in after.sources)
            && (!AllParse(s.volumes) ==> after.containers == before.containers)
  {
    var after := FillService(s, order, before);
    FillSources(s.volumes, order, before.sources);
    FillSucceedsIff(s.volumes, order, before.sources);
    if AllParse(s.volumes) {
      FillWhenAllParse(s.volumes, order, before.sources);
      var c := after.containers[|before.containers|];
      forall id | Mounts(c, id) ensures id in after.sources { MountNames(c, s, id); }
    }
  }

  // For all inputs and orders: the containers are the services all of whose volumes parse, in
  // the order they are listed, and every volume a container mounts has a source.
  lemma {:induction false} MountIntegrity(services: seq<Prepared>, orders: seq<seq<string>>)
    requires AllNamed(services) && Orders(services, orders)
    ensures ContainersFor(FillApp(services, orders).containers, Kept(services))
    ensures forall id :: MountedBy(FillApp(services, orders).containers, id) ==> id in FillApp(services, orders).sources
  {
    if services != [] {
      var n := |services| - 1;
      var before, after := FillApp(services[..n], orders[..n]), FillApp(services, orders);
      assert services[n] in services;
      MountIntegrity(services[..n], orders[..n]);
      MountIntegrityStep(services[n], orders[n], before);
      forall id | MountedBy(after.containers, id) ensures id in after.sources {
        var i :| 0 <= i < |after.containers| && Mounts(after.containers[i], id);
        if i < |before.containers| {
          assert after.containers[i] == before.containers[i];
          assert MountedBy(before.containers, id);
        }
      }
    }
  }

  /* ----- The same, from the services as they are given ----- */

  ghost predicate StringsParse(s: Service) {
    forall id :: id in s.volumes ==> Parse(id, s.volumes[id]).Ok?
  }

  // The services all of whose volume strings parse, in the order they are listed.
  ghost function ParsedServices(services: seq<Service>): seq<Service> {
    if services == [] then []
    else
      var n := |services| - 1;
      ParsedServices(services[..n]) + if StringsParse(services[n]) then [services[n]] else []
  }

  ghost predicate IsContainerOf(c: Container, s: Service) {
    && StringsParse(s)
    && c.name == s.name && c.image == ParseImage(s.image)
    && (forall m :: m in c.mounts <==> exists id :: id in s.volumes && m == Parse(id, s.volumes[id]).value.1)
    && |c.mounts| == |s.volumes|
  }

  lemma {:induction false} KeptArePrepared(services: seq<Service>)
    ensures Kept(PrepareAll(services)) == PrepareAll(ParsedServices(services))
  {
    if services != [] {
      var n := |services| - 1;
      KeptArePrepared(services[..n]);
      assert PrepareAll(services)[..n] == PrepareAll(services[..n]);
      assert PrepareAll(services)[n] == Prepare(services[n]);
      assert AllParse(Prepare(services[n]).volumes) <==> StringsParse(services[n]);
      var parsed := ParsedServices(services[..n]);
      assert PrepareAll(parsed + [services[n]]) == PrepareAll(parsed) + [Prepare(services[n])];
      assert parsed + [] == parsed && PrepareAll(parsed) + [] == PrepareAll(parsed);
    } else {
      assert PrepareAll(services) == [] && PrepareAll(ParsedServices(services)) == [];
    }
  }

  lemma {:induction false} MountsCounted(o: Outcomes)
    requires Named(o) && AllParse(o)
    ensures |MountsOf(o)| == |o|
    decreases |o|
  {
    if o.Keys == {} {
      assert MountsOf(o) == {} && |o| == |o.Keys|;
    } else {
      var id :| id in o;
      var rest := o - {id};
      MountsCounted(rest);
      assert o.Keys == rest.Keys + {id};
      assert MountsOf(o) == MountsOf(rest) + {o[id].value.1};
      assert o[id].value.1 !in MountsOf(rest);
    }
  }

  lemma ContainerIs(c: Container, s: Service)
    requires ContainerFor(c, Prepare(s))
    ensures IsContainerOf(c, s)
  {
    var o := ParseAll(s.volumes);
    ParsedAreNamed(s.volumes);
    MountsCounted(o);
    assert |c.mounts| == |multiset(c.mounts)| == |multiset(MountsOf(o))| == |MountsOf(o)|;
    assert forall m :: m in c.mounts <==> m in multiset(c.mounts);
    assert |o| == |o.Keys| == |s.volumes.Keys| == |s.volumes|;
    forall id | id in s.volumes ensures Parse(id, s.volumes[id]).Ok? { assert o[id].Ok?; }
  }

  // For all services and orders: a container for each service all of whose volume strings
  // parse, in order, with its name, its image, and one mount for each of its volumes.
  lemma ContainersAreServices(services: seq<Service>, orders: seq<seq<string>>)
    requires Orders(PrepareAll(services), orders)
    ensures var cs := FillApp(PrepareAll(services), orders).containers;
            && |cs| == |ParsedServices(services)|
            && forall i :: 0 <= i < |cs| ==> IsContainerOf(cs[i], ParsedServices(services)[i])
  {
    PreparedAreNamed(services);
    MountIntegrity(PrepareAll(services), orders);
    KeptArePrepared(services);
    var cs := FillApp(PrepareAll(services), orders).containers;
    forall i | 0 <= i < |cs| ensures IsContainerOf(cs[i], ParsedServices(services)[i]) {
      assert ContainerFor(cs[i], Kept(PrepareAll(services))[i]);
      ContainerIs(cs[i], ParsedServices(services)[i]);
    }
  }

  // The source of every volume id when all strings parse: that of the service listed first.
  ghost function Sources(services: seq<Prepared>): map<string, Volume>
    requires EveryServiceParses(services)
  {
    if services == [] then map[]
    else
      var n := |services| - 1;
      assert services[n] in services;
      Merge(Sources(services[..n]), services[n].volumes)
  }

  ghost predicate Earliest(services: seq<Prepared>, i: nat, id: string) {
    i < |services| && id in services[i].volumes && forall j :: 0 <= j < i ==> id !in services[j].volumes
  }

  lemma {:induction false} SourceIffDeclared(services: seq<Prepared>, id: string)
    requires EveryServiceParses(services)
    ensures id in Sources(services) <==> exists i :: 0 <= i < |services| && id in services[i].volumes
  {
    if services != [] {
      var n := |services| - 1;
      assert services[n] in services;
      SourceIffDeclared(services[..n], id);
      assert forall i :: 0 <= i < n ==> services[..n][i] == services[i];
    }
  }

  lemma {:induction false} EarliestServiceWins(services: seq<Prepared>, i: nat, id: string)
    requires EveryServiceParses(services) && Earliest(services, i, id)
    ensures id in Sources(services) && services[i].volumes[id].Ok?
    ensures Sources(services)[id] == services[i].volumes[id].value.0
  {
    var n := |services| - 1;
    assert services[n] in services;
    if i < n {
      EarliestServiceWins(services[..n], i, id);
    } else {
      SourceIffDeclared(services[..n], id);
    }
  }

  lemma {:induction false} KeptWhenAllParse(services: seq<Prepared>)
    requires EveryServiceParses(services)
    ensures Kept(services) == services
  {
    if services != [] {
      var n := |services| - 1;
      assert services[n] in services;
      KeptWhenAllParse(services[..n]);
      assert services == services[..n] + [services[n]];
    }
  }

  lemma {:induction false} SourcesAreFilled(services: seq<Prepared>, orders: seq<seq<string>>)
    requires AllNamed(services) && EveryServiceParses(services) && Orders(services, orders)
    ensures FillApp(services, orders).sources == Sources(services)
  {
    if services != [] {
      var n := |services| - 1;
      assert services[n] in services;
      SourcesAreFilled(services[..n], orders[..n]);
      FillWhenAllParse(services[n].volumes, orders[n], Sources(services[..n]));
    }
  }

  // When all strings parse the map of sources is the same in every order, and holds no volume
  // that no container mounts.
  lemma SourcesDoNotDependOnOrder(services: seq<Prepared>, orders: seq<seq<string>>)
    requires AllNamed(services) && EveryServiceParses(services) && Orders(services, orders)
    ensures FillApp(services, orders).sources == Sources(services)
    ensures forall id :: id in Sources(services) <==> MountedBy(FillApp(services, orders).containers, id)
  {
    KeptWhenAllParse(services);
    MountIntegrity(services, orders);
    SourcesAreFilled(services, orders);
    var cs := FillApp(services, orders).containers;
    forall id | id in Sources(services) ensures MountedBy(cs, id) {
      SourceIffDeclared(services, id);
      var i :| 0 <= i < |services| && id in services[i].volumes;
      assert services[i] in services;
      MountNames(cs[i], services[i], id);
    }
  }

  lemma ContainersDoNotDependOnOrder(services: seq<Prepared>, a: seq<seq<string>>, b: seq<seq<string>>)
    requires AllNamed(services) && Orders(services, a) && Orders(services, b)
    ensures var x, y := FillApp(services, a).containers, FillApp(services, b).containers;
            |x| == |y| && forall i :: 0 <= i < |x| ==>
              x[i].name == y[i].name && x[i].image == y[i].image && multiset(x[i].mounts) == multiset(y[i].mounts)
  {
    MountIntegrity(services, a);
    MountIntegrity(services, b);
    var x, y := FillApp(services, a).containers, FillApp(services, b).containers;
    forall i | 0 <= i < |x| ensures multiset(x[i].mounts) == multiset(y[i].mounts) && x[i].name == y[i].name
        && x[i].image == y[i].image {
      assert ContainerFor(x[i], Kept(services)[i]) && ContainerFor(y[i], Kept(services)[i]);
    }
  }

  // A generation goes ahead only with at least one container.
  ghost predicate SomeContainer(services: seq<Prepared>) {
    exists s :: s in services && AllParse(s.volumes)
  }

  lemma {:induction false} KeptIsSomeContainer(services: seq<Prepared>)
    ensures |Kept(services)| >= 1 <==> SomeContainer(services)
  {
    if services != [] {
      var n := |services| - 1;
      KeptIsSomeContainer(services[..n]);
      assert services == services[..n] + [services[n]];
      assert forall s :: s in services <==> s in services[..n] || s == services[n];
    }
  }

  lemma SomeContainerIff(services: seq<Prepared>, orders: seq<seq<string>>)
    requires AllNamed(services) && Orders(services, orders)
    ensures |FillApp(services, orders).containers| >= 1 <==> SomeContainer(services)
  {
    MountIntegrity(services, orders);
    KeptIsSomeContainer(services);
  }

  /* ----- A volume of a skipped service ----- */

  lemma FillTwo(o: Outcomes, a: string, b: string)
    requires a in o && b in o
    ensures Fill(o, [a, b], map[]) == FillOne(o, b, FillOne(o, a, Filled(map[], Some([]))))
  {
    assert [a, b] == [a] + [b] && [a] == [] + [a];
    FillSnoc(o, [], a, map[]);
    FillSnoc(o, [a], b, map[]);
  }

  // A service skipped for one of its two volumes leaves the other's source behind, or not,
  // depending on which is taken first; no container mounts it.
  lemma SkippedServiceLeavesVolume(s: Prepared, good: string, bad: string)
    requires good != bad && s.volumes.Keys == {good, bad} && s.volumes[good].Ok? && s.volumes[bad].Err?
    ensures Orders([s], [[good, bad]]) && Orders([s], [[bad, good]])
    ensures FillApp([s], [[good, bad]]).sources.Keys == {good} && FillApp([s], [[good, bad]]).containers == []
    ensures FillApp([s], [[bad, good]]).sources.Keys == {} && FillApp([s], [[bad, good]]).containers == []
  {
    FillTwo(s.volumes, good, bad);
    FillTwo(s.volumes, bad, good);
  }

  lemma MatchHasColon(s: string)
    requires Scan(s).Some?
    ensures ':' in s
  {
    PrintScanned(s, Scan(s).value);
    ColonsSettleScheme(Scan(s).value);
    NoColons(s);
  }

  lemma SkippedServiceExample(s: Service)
    requires s == Service("web", "nginx", map["data" := "vol:/mnt", "junk" := "x"])
    ensures s.volumes.Keys == {"data", "junk"} && "data" != "junk"
    ensures ParseAll(s.volumes)["data"].Ok? && ParseAll(s.volumes)["junk"] == Err(NoMatch)
  {
    assert "data"[0] != "junk"[0];
    var p := Parts(None, "vol", "/mnt", None, []);
    assert Print(p) == "vol:/mnt";
    ScanPrinted(p);
    assert ':' !in "x";
    if Scan("x").Some? { MatchHasColon("x"); }
  }
}
