// The claims generated for an application's pod volumes.
module Claims {
  import opened Resources
  import opened VolumeGrammar
  import opened VolumeParser
  import opened Pipeline

  datatype Artifact = Artifact(text: string, retain: Option<string>)

  // The claim template is given the whole volume, and the attributes may hold references to
  // any part of it; rendering may fail.
  type Renderer = Volume -> Option<string>

  function ArtifactOf(v: Volume, text: string): Artifact {
    Artifact(text, if "retain" in v.attr then Some(v.attr["retain"]) else None)
  }

  ghost predicate HaveClaims(volumes: map<string, Volume>) {
    forall id :: id in volumes && volumes[id].scheme.Pvc? ==> "claim" in volumes[id].attr
  }

  ghost function FillPvc(v: Volume, before: Option<map<string, Artifact>>,
                         render: Renderer): Option<map<string, Artifact>>
    requires v.scheme.Pvc? ==> "claim" in v.attr
  {
    if before.None? || v.scheme.Nfs? then before
    else if render(v).None? then None
    else Some(before.value[v.attr["claim"] := ArtifactOf(v, render(v).value)])
  }

  // The claims rendered from the pod's volumes, taken in `order`; None if a rendering fails.
  // A later volume of the same claim replaces an earlier one.
  ghost function FillPvcs(volumes: map<string, Volume>, order: seq<string>,
                          render: Renderer): Option<map<string, Artifact>>
    requires HaveClaims(volumes) && forall id :: id in order ==> id in volumes
  {
    if order == [] then Some(map[])
    else
      var n := |order| - 1;
      FillPvc(volumes[order[n]], FillPvcs(volumes, order[..n], render), render)
  }

  ghost predicate SomePvcFails(volumes: map<string, Volume>, render: Renderer) {
    exists id :: id in volumes && volumes[id].scheme.Pvc? && render(volumes[id]).None?
  }

  ghost predicate AsksFor(v: Volume, c: string) {
    v.scheme.Pvc? && "claim" in v.attr && v.attr["claim"] == c
  }

  ghost predicate SomeVolumeClaims(volumes: map<string, Volume>, c: string) {
    exists id :: id in volumes && AsksFor(volumes[id], c)
  }

  lemma {:induction false} StuckOnFailedRender(volumes: map<string, Volume>, order: seq<string>, more: seq<string>,
                                               render: Renderer)
    requires HaveClaims(volumes)
    requires (forall id :: id in order ==> id in volumes) && (forall id :: id in more ==> id in volumes)
    requires FillPvcs(volumes, order, render).None?
    ensures FillPvcs(volumes, order + more, render).None?
  {
    if more == [] {
      assert order + more == order;
    } else {
      var n := |more| - 1;
      StuckOnFailedRender(volumes, order, more[..n], render);
      assert order + more == (order + more[..n]) + [more[n]];
    }
  }

  lemma {:induction false} PvcsFailIff(volumes: map<string, Volume>, order: seq<string>, render: Renderer)
    requires HaveClaims(volumes) && forall id :: id in order ==> id in volumes
    ensures FillPvcs(volumes, order, render).None?
        <==> exists id :: id in order && volumes[id].scheme.Pvc? && render(volumes[id]).None?
  {
    if order != [] {
      var n := |order| - 1;
      assert order == order[..n] + [order[n]];
      PvcsFailIff(volumes, order[..n], render);
    }
  }

  ghost predicate ClaimedIn(volumes: map<string, Volume>, order: seq<string>, c: string) {
    exists id :: id in order && id in volumes && AsksFor(volumes[id], c)
  }

  lemma {:induction false} KeysAreClaims(volumes: map<string, Volume>, order: seq<string>, render: Renderer)
    requires HaveClaims(volumes) && forall id :: id in order ==> id in volumes
    requires FillPvcs(volumes, order, render).Some?
    ensures forall c :: c in FillPvcs(volumes, order, render).value <==> ClaimedIn(volumes, order, c)
  {
    if order != [] {
      var n := |order| - 1;
      KeysAreClaims(volumes, order[..n], render);
      assert order == order[..n] + [order[n]];
      forall c ensures ClaimedIn(volumes, order, c)
          <==> ClaimedIn(volumes, order[..n], c) || AsksFor(volumes[order[n]], c) {}
    }
  }

  // Each claim's text is what some volume of that claim is rendered to, with its retain option.
  ghost predicate ComesFrom(volumes: map<string, Volume>, c: string, a: Artifact, render: Renderer) {
    exists id :: id in volumes && AsksFor(volumes[id], c)
      && render(volumes[id]) == Some(a.text)
      && a.retain == if "retain" in volumes[id].attr then Some(volumes[id].attr["retain"]) else None
  }

  lemma {:induction false} PvcsComeFrom(volumes: map<string, Volume>, order: seq<string>, render: Renderer, c: string)
    requires HaveClaims(volumes) && forall id :: id in order ==> id in volumes
    requires FillPvcs(volumes, order, render).Some? && c in FillPvcs(volumes, order, render).value
    ensures ComesFrom(volumes, c, FillPvcs(volumes, order, render).value[c], render)
  {
    var n := |order| - 1;
    if AsksFor(volumes[order[n]], c) {
      assert order[n] in volumes;
    } else {
      PvcsComeFrom(volumes, order[..n], render, c);
    }
  }

  method GeneratePvcs(volumes: map<string, Volume>, render: Renderer)
    returns (pvcs: Option<map<string, Artifact>>, ghost order: seq<string>)
    requires HaveClaims(volumes)
    ensures Enumerates(order, volumes.Keys)
    ensures pvcs == FillPvcs(volumes, order, render)
    ensures pvcs.None? <==> SomePvcFails(volumes, render)
    ensures pvcs.Some? ==> forall c :: c in pvcs.value <==> SomeVolumeClaims(volumes, c)
  {
    var acc := map[];
    order := [];
    var rest := volumes.Keys;
    while rest != {}
      invariant rest <= volumes.Keys && Enumerates(order, volumes.Keys - rest)
      invariant FillPvcs(volumes, order, render) == Some(acc)
      decreases rest
    {
      var id :| id in rest;
      rest := rest - {id};
      order := order + [id];
      var v := volumes[id];
      if v.scheme.Pvc? {
        var text := render(v);
        if text.None? {
          ghost var tail := SomeOrder(rest);
          StuckOnFailedRender(volumes, order, tail, render);
          EnumeratesAppend(order, volumes.Keys - rest, tail, rest);
          assert volumes.Keys - rest + rest == volumes.Keys;
          order := order + tail;
          assert SomePvcFails(volumes, render);
          return None, order;
        }
        acc := acc[v.attr["claim"] := ArtifactOf(v, text.value)];
      }
    }
    pvcs := Some(acc);
    PvcsFailIff(volumes, order, render);
    KeysAreClaims(volumes, order, render);
    forall c ensures ClaimedIn(volumes, order, c) <==> SomeVolumeClaims(volumes, c) {}
  }

  /* ----- Whether map order shows ----- */

  // What one volume contributes.
  function Contribution(v: Volume, render: Renderer): Option<Artifact> {
    if render(v).None? then None else Some(ArtifactOf(v, render(v).value))
  }

  // Volumes that share a claim contribute the same text and the same retain option.
  ghost predicate ClaimsAgree(volumes: map<string, Volume>, render: Renderer) {
    forall a, b, c :: a in volumes && b in volumes && AsksFor(volumes[a], c) && AsksFor(volumes[b], c) ==>
      Contribution(volumes[a], render) == Contribution(volumes[b], render)
  }

  ghost predicate SameInEveryOrder(volumes: map<string, Volume>, render: Renderer)
    requires HaveClaims(volumes)
  {
    forall a, b :: Enumerates(a, volumes.Keys) && Enumerates(b, volumes.Keys) ==>
      FillPvcs(volumes, a, render) == FillPvcs(volumes, b, render)
  }

  lemma {:induction false} ValuesAreRendered(volumes: map<string, Volume>, order: seq<string>, render: Renderer,
                                             id: string, c: string)
    requires HaveClaims(volumes) && ClaimsAgree(volumes, render) && forall x :: x in order ==> x in volumes
    requires FillPvcs(volumes, order, render).Some?
    requires id in order && AsksFor(volumes[id], c)
    ensures c in FillPvcs(volumes, order, render).value
    ensures Some(FillPvcs(volumes, order, render).value[c]) == Contribution(volumes[id], render)
  {
    var n := |order| - 1;
    if !AsksFor(volumes[order[n]], c) {
      assert order == order[..n] + [order[n]];
      ValuesAreRendered(volumes, order[..n], render, id, c);
    }
  }

  lemma PvcsIncluded(volumes: map<string, Volume>, a: seq<string>, b: seq<string>, render: Renderer)
    requires HaveClaims(volumes) && ClaimsAgree(volumes, render)
    requires Enumerates(a, volumes.Keys) && Enumerates(b, volumes.Keys)
    requires FillPvcs(volumes, a, render).Some? && FillPvcs(volumes, b, render).Some?
    ensures forall c :: c in FillPvcs(volumes, a, render).value ==>
              c in FillPvcs(volumes, b, render).value
              && FillPvcs(volumes, b, render).value[c] == FillPvcs(volumes, a, render).value[c]
  {
    var x, y := FillPvcs(volumes, a, render).value, FillPvcs(volumes, b, render).value;
    forall c | c in x ensures c in y && y[c] == x[c] {
      KeysAreClaims(volumes, a, render);
      var id :| id in a && id in volumes && AsksFor(volumes[id], c);
      assert id in b;
      ValuesAreRendered(volumes, a, render, id, c);
      ValuesAreRendered(volumes, b, render, id, c);
    }
  }

  lemma LastOfClaimIsLeft(volumes: map<string, Volume>, order: seq<string>, render: Renderer, c: string)
    requires HaveClaims(volumes) && (forall id :: id in order ==> id in volumes) && order != []
    requires FillPvcs(volumes, order, render).Some? && AsksFor(volumes[order[|order| - 1]], c)
    ensures c in FillPvcs(volumes, order, render).value
    ensures Some(FillPvcs(volumes, order, render).value[c]) == Contribution(volumes[order[|order| - 1]], render)
  {
  }

  lemma AgreeIfSameInEveryOrder(volumes: map<string, Volume>, render: Renderer)
    requires HaveClaims(volumes) && SameInEveryOrder(volumes, render) && !SomePvcFails(volumes, render)
    ensures ClaimsAgree(volumes, render)
  {
    forall a, b, c | a in volumes && b in volumes && AsksFor(volumes[a], c) && AsksFor(volumes[b], c)
      ensures Contribution(volumes[a], render) == Contribution(volumes[b], render)
    {
      var x := OrderEndingIn(volumes.Keys, a);
      var y := OrderEndingIn(volumes.Keys, b);
      PvcsFailIff(volumes, x, render);
      PvcsFailIff(volumes, y, render);
      LastOfClaimIsLeft(volumes, x, render, c);
      LastOfClaimIsLeft(volumes, y, render, c);
    }
  }

  // The claims are the same in every order exactly if a volume fails to render, and so there
  // are none, or any two volumes of one claim contribute the same.
  lemma PvcsDoNotDependOnOrderIff(volumes: map<string, Volume>, render: Renderer)
    requires HaveClaims(volumes)
    ensures SameInEveryOrder(volumes, render) <==> SomePvcFails(volumes, render) || ClaimsAgree(volumes, render)
  {
    if SomePvcFails(volumes, render) || ClaimsAgree(volumes, render) {
      forall a, b | Enumerates(a, volumes.Keys) && Enumerates(b, volumes.Keys)
        ensures FillPvcs(volumes, a, render) == FillPvcs(volumes, b, render)
      {
        PvcsFailIff(volumes, a, render);
        PvcsFailIff(volumes, b, render);
        if !SomePvcFails(volumes, render) {
          PvcsIncluded(volumes, a, b, render);
          PvcsIncluded(volumes, b, a, render);
          assert FillPvcs(volumes, a, render).value == FillPvcs(volumes, b, render).value;
        }
      }
    } else if SameInEveryOrder(volumes, render) {
      AgreeIfSameInEveryOrder(volumes, render);
    }
  }

  // Equal attributes are enough as long as no text depends on anything else of the volume.
  lemma EqualAttributesSuffice(volumes: map<string, Volume>, render: Renderer)
    requires HaveClaims(volumes)
    requires forall v: Volume, w: Volume :: v.attr == w.attr ==> render(v) == render(w)
    requires forall a, b, c :: a in volumes && b in volumes && AsksFor(volumes[a], c) && AsksFor(volumes[b], c) ==>
               volumes[a].attr == volumes[b].attr
    ensures SameInEveryOrder(volumes, render)
  {
    PvcsDoNotDependOnOrderIff(volumes, render);
  }

  const OWN_NAME := "{{ .volume.Name }}"

  // The storage a claim asks for, whose text may refer to the volume's own name.
  function StorageOf(v: Volume): Option<string> {
    if "size" !in v.attr then Some("1G")
    else if v.attr["size"] == OWN_NAME then Some(v.name)
    else Some(v.attr["size"])
  }

  lemma OwnNameDisagrees()
    ensures var attr := map["size" := OWN_NAME, "claim" := "c"];
            var volumes := map["a" := Volume("a", Pvc, attr), "b" := Volume("b", Pvc, attr)];
            HaveClaims(volumes) && !SameInEveryOrder(volumes, StorageOf)
  {
    var attr := map["size" := OWN_NAME, "claim" := "c"];
    var volumes := map["a" := Volume("a", Pvc, attr), "b" := Volume("b", Pvc, attr)];
    assert |"size"| != |"claim"|;
    assert "a" in volumes && "b" in volumes && "a"[0] != "b"[0];
    assert AsksFor(volumes["a"], "c") && AsksFor(volumes["b"], "c");
    assert Contribution(volumes["a"], StorageOf).value.text != Contribution(volumes["b"], StorageOf).value.text;
    PvcsDoNotDependOnOrderIff(volumes, StorageOf);
  }

  // One volume string under two ids: equal attributes, one claim, and a size that refers to the
  // volume's own name. Which of the two sizes the claim gets is a matter of map order.
  lemma OwnNameShows()
    ensures var s := "c:/m,size=" + OWN_NAME;
            && Parse("a", s).Ok? && Parse("b", s).Ok?
            && var volumes := map["a" := Parse("a", s).value.0, "b" := Parse("b", s).value.0];
               && volumes["a"].attr == volumes["b"].attr
               && HaveClaims(volumes) && !SameInEveryOrder(volumes, StorageOf)
  {
    ParseOneSize("a", OWN_NAME);
    ParseOneSize("b", OWN_NAME);
    OwnNameDisagrees();
  }

  lemma {:induction false} FilledHaveClaims(services: seq<Prepared>, orders: seq<seq<string>>)
    requires AllNamed(services) && Orders(services, orders)
    ensures HaveClaims(FillApp(services, orders).sources)
  {
    if services != [] {
      var n := |services| - 1;
      assert services[n] in services;
      FilledHaveClaims(services[..n], orders[..n]);
      FillSources(services[n].volumes, orders[n], FillApp(services[..n], orders[..n]).sources);
    }
  }

  // Some container mounts a pvc volume whose source, the one listed first, is the claim `c`.
  ghost predicate MountsClaim(services: seq<Prepared>, containers: seq<Container>, c: string)
    requires EveryServiceParses(services)
  {
    exists id :: MountedBy(containers, id) && id in Sources(services) && AsksFor(Sources(services)[id], c)
  }

  // When all strings parse, the generated claims are exactly those some container mounts.
  lemma PvcSetIsExact(services: seq<Prepared>, orders: seq<seq<string>>, order: seq<string>, render: Renderer)
    requires AllNamed(services) && EveryServiceParses(services) && Orders(services, orders)
    requires Enumerates(order, FillApp(services, orders).sources.Keys)
    ensures HaveClaims(FillApp(services, orders).sources)
    ensures var pvcs := FillPvcs(FillApp(services, orders).sources, order, render);
            pvcs.Some? ==>
              forall c :: c in pvcs.value <==> MountsClaim(services, FillApp(services, orders).containers, c)
  {
    FilledHaveClaims(services, orders);
    SourcesDoNotDependOnOrder(services, orders);
    var sources, containers := FillApp(services, orders).sources, FillApp(services, orders).containers;
    if FillPvcs(sources, order, render).Some? {
      KeysAreClaims(sources, order, render);
      forall c ensures ClaimedIn(sources, order, c) <==> MountsClaim(services, containers, c) {}
    }
  }
}
