// From an instance's application and user to the artifacts to apply: the pod's text, one text
// per claim and one per container, or nothing, or a failure.
module Generation {
  import opened Resources
  import opened VolumeParser
  import opened Pipeline
  import opened Claims
  import ClaimTemplate

  // What the three templates render; each may fail.
  datatype Templates = Templates(deployment: (seq<Container>, map<string, Volume>) -> Option<string>,
                                 pvc: Renderer,
                                 service: Container -> Option<string>)

  datatype Generated =
    | Nothing
    | Failed
    | Made(deployment: string, pvcs: map<string, Artifact>, services: map<string, string>)

  // The services' texts under the container names, a later container replacing an earlier one
  // of the same name; None if one fails.
  ghost function FillServices(cs: seq<Container>, render: Container -> Option<string>): Option<map<string, string>> {
    if cs == [] then Some(map[])
    else
      var last := cs[|cs| - 1];
      var before := FillServices(cs[..|cs| - 1], render);
      if before.None? || render(last).None? then None else Some(before.value[last.name := render(last).value])
  }

  ghost function Generate(f: AppFilled, order: seq<string>, t: Templates): Generated
    requires HaveClaims(f.sources) && forall id :: id in order ==> id in f.sources
  {
    if |f.containers| < 1 then Nothing
    else
      var pod, pvcs, services := t.deployment(f.containers, f.sources), FillPvcs(f.sources, order, t.pvc),
          FillServices(f.containers, t.service);
      if pod.None? || pvcs.None? || services.None? then Failed else Made(pod.value, pvcs.value, services.value)
  }

  lemma {:induction false} FailsFrom(cs: seq<Container>, n: nat, render: Container -> Option<string>)
    requires n <= |cs| && FillServices(cs[..n], render).None?
    ensures FillServices(cs, render).None?
  {
    if n == |cs| {
      assert cs[..n] == cs;
    } else {
      assert cs[..|cs| - 1][..n] == cs[..n];
      FailsFrom(cs[..|cs| - 1], n, render);
    }
  }

  // What generation may come to, in some order.
  ghost predicate IsGenerated(g: Generated, app: Option<HelxApp>, user: Option<HelxUser>, t: Templates) {
    if app.None? || user.None? then g == Nothing
    else
      var services := PrepareAll(app.value.services);
      exists orders, order ::
        && Orders(services, orders) && Enumerates(order, FillApp(services, orders).sources.Keys)
        && HaveClaims(FillApp(services, orders).sources)
        && g == Generate(FillApp(services, orders), order, t)
  }

  method GenerateArtifacts(app: Option<HelxApp>, user: Option<HelxUser>, t: Templates)
    returns (r: Generated, ghost orders: seq<seq<string>>, ghost order: seq<string>)
    ensures app.None? || user.None? ==> r == Nothing
    ensures app.Some? && user.Some? ==>
              var services := PrepareAll(app.value.services);
              && Orders(services, orders)
              && Enumerates(order, FillApp(services, orders).sources.Keys)
              && HaveClaims(FillApp(services, orders).sources)
              && r == Generate(FillApp(services, orders), order, t)
  {
    orders, order := [], [];
    if app.None? || user.None? {
      return Nothing, orders, order;
    }
    var containers, sources;
    containers, sources, orders := TransformApp(app.value.services);
    PreparedAreNamed(app.value.services);
    FilledHaveClaims(PrepareAll(app.value.services), orders);
    order := SomeOrder(sources.m.Keys);
    if |containers| < 1 {
      return Nothing, orders, order;
    }
    var pod := t.deployment(containers, sources.m);
    if pod.None? {
      return Failed, orders, order;
    }
    var pvcs;
    pvcs, order := GeneratePvcs(sources.m, t.pvc);
    if pvcs.None? {
      return Failed, orders, order;
    }
    var services := map[];
    for i := 0 to |containers|
      invariant FillServices(containers[..i], t.service) == Some(services)
    {
      assert containers[..i + 1][..i] == containers[..i];
      var text := t.service(containers[i]);
      if text.None? {
        FailsFrom(containers, i + 1, t.service);
        return Failed, orders, order;
      }
      services := services[containers[i].name := text.value];
    }
    assert containers[..|containers|] == containers;
    r := Made(pod.value, pvcs.value, services);
  }

  /* ----- What is generated ----- */

  ghost predicate SomeNamed(cs: seq<Container>, n: string) {
    exists i :: 0 <= i < |cs| && cs[i].name == n
  }

  ghost predicate LastNamed(cs: seq<Container>, i: nat) {
    i < |cs| && forall j :: i < j < |cs| ==> cs[j].name != cs[i].name
  }

  lemma {:induction false} ServicesFailIff(cs: seq<Container>, render: Container -> Option<string>)
    ensures FillServices(cs, render).None? <==> exists i :: 0 <= i < |cs| && render(cs[i]).None?
  {
    if cs != [] {
      var n := |cs| - 1;
      ServicesFailIff(cs[..n], render);
      assert forall i :: 0 <= i < n ==> cs[..n][i] == cs[i];
    }
  }

  lemma {:induction false} ServiceNames(cs: seq<Container>, render: Container -> Option<string>, name: string)
    requires FillServices(cs, render).Some?
    ensures name in FillServices(cs, render).value <==> SomeNamed(cs, name)
  {
    if cs != [] {
      var n := |cs| - 1;
      ServiceNames(cs[..n], render, name);
      assert forall i :: 0 <= i < n ==> cs[..n][i] == cs[i];
    }
  }

  // Of several containers with one name the last gives the Service.
  lemma {:induction false} LastContainerWins(cs: seq<Container>, render: Container -> Option<string>, i: nat)
    requires FillServices(cs, render).Some? && LastNamed(cs, i)
    ensures cs[i].name in FillServices(cs, render).value
    ensures render(cs[i]) == Some(FillServices(cs, render).value[cs[i].name])
  {
    var n := |cs| - 1;
    if i < n {
      assert cs[n].name != cs[i].name;
      LastContainerWins(cs[..n], render, i);
    }
  }

  // Some part of the pod described by `f` cannot be rendered.
  ghost predicate SomeRenderFails(f: AppFilled, t: Templates) {
    || t.deployment(f.containers, f.sources).None?
    || SomePvcFails(f.sources, t.pvc)
    || (exists i :: 0 <= i < |f.containers| && t.service(f.containers[i]).None?)
  }

  ghost predicate SomeParsedNamed(services: seq<Prepared>, n: string) {
    exists s :: s in services && AllParse(s.volumes) && s.name == n
  }

  ghost predicate SomeSourceClaims(services: seq<Prepared>, c: string)
    requires EveryServiceParses(services)
  {
    exists id :: id in Sources(services) && Claims.AsksFor(Sources(services)[id], c)
  }

  // Nothing is generated exactly if no service parses; it fails exactly if some part of the
  // pod cannot be rendered.
  lemma GeneratedWhen(services: seq<Prepared>, orders: seq<seq<string>>, order: seq<string>, t: Templates)
    requires AllNamed(services) && Orders(services, orders)
    requires Enumerates(order, FillApp(services, orders).sources.Keys)
    ensures HaveClaims(FillApp(services, orders).sources)
    ensures Generate(FillApp(services, orders), order, t).Nothing? <==> !SomeContainer(services)
    ensures Generate(FillApp(services, orders), order, t).Failed? <==>
              SomeContainer(services) && SomeRenderFails(FillApp(services, orders), t)
  {
    FilledHaveClaims(services, orders);
    SomeContainerIff(services, orders);
    var f := FillApp(services, orders);
    PvcsFailIff(f.sources, order, t.pvc);
    ServicesFailIff(f.containers, t.service);
  }

  // One pod volume with the option storageClass, and nothing is made for the whole pod.
  lemma StorageClassStopsThePod(services: seq<Prepared>, orders: seq<seq<string>>, order: seq<string>, t: Templates,
                                id: string, uuid: string, expand: ClaimTemplate.Expansion)
    requires AllNamed(services) && Orders(services, orders)
    requires Enumerates(order, FillApp(services, orders).sources.Keys) && HaveClaims(FillApp(services, orders).sources)
    requires forall v: Volume :: "claim" in v.attr && ClaimTemplate.PvcTemplate(v, uuid, expand).None? ==>
        t.pvc(v).None?
    requires id in FillApp(services, orders).sources && FillApp(services, orders).sources[id].scheme.Pvc?
    requires ClaimTemplate.IsSet(FillApp(services, orders).sources[id].attr, "storageClass")
    ensures !Generate(FillApp(services, orders), order, t).Made?
  {
    var v := FillApp(services, orders).sources[id];
    assert ClaimTemplate.PvcTemplate(v, uuid, expand).None?;
    GeneratedWhen(services, orders, order, t);
  }

  lemma ContainersNamed(cs: seq<Container>, services: seq<Prepared>, n: string)
    requires ContainersFor(cs, Kept(services))
    ensures SomeNamed(cs, n) <==> SomeParsedNamed(services, n)
  {
    KeptAreThose(services);
    if SomeParsedNamed(services, n) {
      var s :| s in services && AllParse(s.volumes) && s.name == n;
      var i :| 0 <= i < |Kept(services)| && Kept(services)[i] == s;
      assert ContainerFor(cs[i], Kept(services)[i]);
    }
    if i :| 0 <= i < |cs| && cs[i].name == n {
      assert ContainerFor(cs[i], Kept(services)[i]) && Kept(services)[i] in Kept(services);
    }
  }

  lemma ServicesMade(services: seq<Prepared>, orders: seq<seq<string>>, t: Templates)
    requires AllNamed(services) && Orders(services, orders)
    requires FillServices(FillApp(services, orders).containers, t.service).Some?
    ensures var made := FillServices(FillApp(services, orders).containers, t.service).value;
            forall n :: n in made <==> SomeParsedNamed(services, n)
  {
    MountIntegrity(services, orders);
    var cs := FillApp(services, orders).containers;
    forall n ensures n in FillServices(cs, t.service).value <==> SomeParsedNamed(services, n) {
      ServiceNames(cs, t.service, n);
      ContainersNamed(cs, services, n);
    }
  }

  lemma PvcsMade(services: seq<Prepared>, orders: seq<seq<string>>, order: seq<string>, t: Templates)
    requires AllNamed(services) && EveryServiceParses(services) && Orders(services, orders)
    requires Enumerates(order, FillApp(services, orders).sources.Keys) && HaveClaims(FillApp(services, orders).sources)
    requires FillPvcs(FillApp(services, orders).sources, order, t.pvc).Some?
    ensures var made := FillPvcs(FillApp(services, orders).sources, order, t.pvc).value;
            forall c :: c in made <==> SomeSourceClaims(services, c)
  {
    SourcesDoNotDependOnOrder(services, orders);
    var sources := FillApp(services, orders).sources;
    KeysAreClaims(sources, order, t.pvc);
    forall c ensures ClaimedIn(sources, order, c) <==> SomeSourceClaims(services, c) {}
  }

  // What is made has a Service for each service that parses and, when all of them do, a claim
  // for each pvc source; and none besides.
  lemma MadeIsExact(services: seq<Prepared>, orders: seq<seq<string>>, order: seq<string>, t: Templates)
    requires AllNamed(services) && Orders(services, orders)
    requires Enumerates(order, FillApp(services, orders).sources.Keys)
    ensures HaveClaims(FillApp(services, orders).sources)
    ensures var g := Generate(FillApp(services, orders), order, t);
            g.Made? ==> forall n :: n in g.services <==> SomeParsedNamed(services, n)
    ensures var g := Generate(FillApp(services, orders), order, t);
            g.Made? && EveryServiceParses(services) ==> forall c :: c in g.pvcs <==> SomeSourceClaims(services, c)
  {
    FilledHaveClaims(services, orders);
    var f := FillApp(services, orders);
    if Generate(f, order, t).Made? {
      ServicesMade(services, orders, t);
      if EveryServiceParses(services) { PvcsMade(services, orders, order, t); }
    }
  }

  // And the texts are those of the templates: the pod's of all its containers and sources, a
  // claim's of a volume of that claim, a Service's of the last container of that name.
  lemma MadeTexts(services: seq<Prepared>, orders: seq<seq<string>>, order: seq<string>, t: Templates)
    requires AllNamed(services) && Orders(services, orders)
    requires Enumerates(order, FillApp(services, orders).sources.Keys)
    requires HaveClaims(FillApp(services, orders).sources)
    ensures var f, g := FillApp(services, orders), Generate(FillApp(services, orders), order, t);
            g.Made? ==>
              && t.deployment(f.containers, f.sources) == Some(g.deployment)
              && (forall c :: c in g.pvcs ==> ComesFrom(f.sources, c, g.pvcs[c], t.pvc))
              && (forall i: nat :: LastNamed(f.containers, i) ==>
                    && f.containers[i].name in g.services
                    && t.service(f.containers[i]) == Some(g.services[f.containers[i].name]))
  {
    var f, g := FillApp(services, orders), Generate(FillApp(services, orders), order, t);
    if g.Made? {
      forall c | c in g.pvcs ensures ComesFrom(f.sources, c, g.pvcs[c], t.pvc) {
        PvcsComeFrom(f.sources, order, t.pvc, c);
      }
      forall i: nat | LastNamed(f.containers, i)
        ensures f.containers[i].name in g.services
        ensures t.service(f.containers[i]) == Some(g.services[f.containers[i].name])
      {
        LastContainerWins(f.containers, t.service, i);
      }
    }
  }
}
