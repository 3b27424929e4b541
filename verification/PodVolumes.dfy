// What services that are skipped leave in the map of sources: when a source is left that no
// container mounts, and when the map depends on the order in which Go ranges over volumes.
module PodVolumes {
  import opened Resources
  import opened VolumeParser
  import opened Pipeline

  // The service has a volume string for `id` that parses.
  predicate Yields(s: Prepared, id: string) {
    id in s.volumes && s.volumes[id].Ok?
  }

  function SourceOf(s: Prepared, id: string): Volume
    requires Yields(s, id)
  {
    s.volumes[id].value.0
  }

  ghost predicate Parses(s: Prepared) {
    AllParse(s.volumes)
  }

  /* ----- The map after the first services ----- */

  lemma PrefixOrders(services: seq<Prepared>, orders: seq<seq<string>>, n: nat)
    requires Orders(services, orders) && n <= |services|
    ensures Orders(services[..n], orders[..n])
  {
  }

  ghost function UpTo(services: seq<Prepared>, orders: seq<seq<string>>, n: nat): map<string, Volume>
    requires Orders(services, orders) && n <= |services|
  {
    PrefixOrders(services, orders, n);
    FillApp(services[..n], orders[..n]).sources
  }

  lemma UpToEnd(services: seq<Prepared>, orders: seq<seq<string>>)
    requires Orders(services, orders)
    ensures UpTo(services, orders, |services|) == FillApp(services, orders).sources
  {
    assert services[..|services|] == services && orders[..|services|] == orders;
  }

  lemma UpToNext(services: seq<Prepared>, orders: seq<seq<string>>, n: nat)
    requires Orders(services, orders) && n < |services|
    ensures UpTo(services, orders, n + 1) == Fill(services[n].volumes, orders[n], UpTo(services, orders, n)).sources
  {
    PrefixOrders(services, orders, n);
    FillAppSnoc(services, orders[..n], n, orders[n]);
    assert orders[..n + 1] == orders[..n] + [orders[n]];
  }

  lemma FirstFails(o: Outcomes, first: string, rest: seq<string>, sources: map<string, Volume>)
    requires first in o && o[first].Err? && forall id :: id in rest ==> id in o
    ensures Fill(o, [first] + rest, sources).sources == sources
  {
    FillSnoc(o, [], first, sources);
    assert [] + [first] == [first];
    StuckOnFailure(o, [first], rest, sources);
  }

  // One service: sources stay, new ones are its own, all of its own are there if it parses; if
  // a string that fails comes up first there is none of it, and the first that does not fail
  // has its source.
  lemma UpToStep(services: seq<Prepared>, orders: seq<seq<string>>, n: nat)
    requires Orders(services, orders) && n < |services|
    ensures var x, y := UpTo(services, orders, n), UpTo(services, orders, n + 1);
            && x.Keys <= y.Keys && (forall id :: id in x ==> y[id] == x[id])
            && (forall id :: id in y && id !in x ==> Yields(services[n], id) && y[id] == SourceOf(services[n], id))
            && (Parses(services[n]) ==> services[n].volumes.Keys <= y.Keys)
            && (orders[n] != [] && !Yields(services[n], orders[n][0]) ==> y == x)
            && (orders[n] != [] && Yields(services[n], orders[n][0]) ==> orders[n][0] in y)
  {
    var o, order, x := services[n].volumes, orders[n], UpTo(services, orders, n);
    UpToNext(services, orders, n);
    FillSources(o, order, x);
    if Parses(services[n]) {
      FillSucceedsIff(o, order, x);
      FillMounts(o, order, x);
      assert Elements(order) == o.Keys;
    }
    if order != [] {
      assert order == [order[0]] + order[1..] && order[0] in o;
      if o[order[0]].Ok? { FirstIsFilled(o, order[0], order[1..], x); } else { FirstFails(o, order[0], order[1..], x); }
    }
  }

  lemma {:induction false} SourcesStay(services: seq<Prepared>, orders: seq<seq<string>>, m: nat, n: nat, id: string)
    requires Orders(services, orders) && m <= n <= |services| && id in UpTo(services, orders, m)
    ensures id in UpTo(services, orders, n) && UpTo(services, orders, n)[id] == UpTo(services, orders, m)[id]
    decreases n
  {
    if m < n {
      SourcesStay(services, orders, m, n - 1, id);
      UpToStep(services, orders, n - 1);
    }
  }

  lemma ParsedIsThere(services: seq<Prepared>, orders: seq<seq<string>>, i: nat, n: nat, id: string)
    requires Orders(services, orders) && i < n <= |services| && Parses(services[i]) && id in services[i].volumes
    ensures id in UpTo(services, orders, n)
  {
    UpToStep(services, orders, i);
    SourcesStay(services, orders, i + 1, n, id);
  }

  lemma {:induction false} SourceOrigin(services: seq<Prepared>, orders: seq<seq<string>>, n: nat, id: string)
    requires Orders(services, orders) && n <= |services| && id in UpTo(services, orders, n)
    ensures exists i :: 0 <= i < n && Yields(services[i], id)
    decreases n
  {
    if n > 0 {
      UpToStep(services, orders, n - 1);
      if id in UpTo(services, orders, n - 1) {
        SourceOrigin(services, orders, n - 1, id);
      } else {
        assert Yields(services[n - 1], id);
      }
    }
  }

  /* ----- Orders of our choice ----- */

  // Of each service that is skipped, a string that fails comes up first.
  ghost predicate Quiet(services: seq<Prepared>, orders: seq<seq<string>>, n: nat)
    requires Orders(services, orders) && n <= |services|
  {
    forall i :: 0 <= i < n && !Parses(services[i]) ==> orders[i] != [] && !Yields(services[i], orders[i][0])
  }

  lemma OrderStartingWith(keys: set<string>, id: string) returns (order: seq<string>)
    requires id in keys
    ensures Enumerates(order, keys) && order != [] && order[0] == id
  {
    var rest := SomeOrder(keys - {id});
    order := [id] + rest;
    assert forall k :: k in order <==> k == id || k in rest;
  }

  lemma QuietOrder(s: Prepared) returns (order: seq<string>)
    ensures Enumerates(order, s.volumes.Keys)
    ensures !Parses(s) ==> order != [] && !Yields(s, order[0])
  {
    if Parses(s) {
      order := SomeOrder(s.volumes.Keys);
    } else {
      var bad :| bad in s.volumes && !s.volumes[bad].Ok?;
      order := OrderStartingWith(s.volumes.Keys, bad);
    }
  }

  lemma {:induction false} QuietOrders(services: seq<Prepared>) returns (orders: seq<seq<string>>)
    ensures Orders(services, orders) && Quiet(services, orders, |services|)
  {
    if services == [] {
      orders := [];
    } else {
      var n := |services| - 1;
      var init := QuietOrders(services[..n]);
      var last := QuietOrder(services[n]);
      orders := init + [last];
      assert forall i :: 0 <= i < n ==> services[..n][i] == services[i] && orders[i] == init[i];
    }
  }

  // Quiet, but for one service, of which `id` comes up first.
  lemma LoudOrders(services: seq<Prepared>, i: nat, id: string) returns (orders: seq<seq<string>>)
    requires i < |services| && id in services[i].volumes
    ensures Orders(services, orders) && Quiet(services, orders, i)
    ensures orders[i] != [] && orders[i][0] == id
  {
    var quiet := QuietOrders(services);
    var order := OrderStartingWith(services[i].volumes.Keys, id);
    orders := quiet[i := order];
  }

  lemma LoudIsThere(services: seq<Prepared>, orders: seq<seq<string>>, i: nat, id: string)
    requires Orders(services, orders) && i < |services| && Yields(services[i], id)
    requires orders[i] != [] && orders[i][0] == id
    ensures id in UpTo(services, orders, i + 1) && id in FillApp(services, orders).sources
    ensures FillApp(services, orders).sources[id] == UpTo(services, orders, i + 1)[id]
  {
    UpToStep(services, orders, i);
    SourcesStay(services, orders, i + 1, |services|, id);
    UpToEnd(services, orders);
  }

  /* ----- Whether every source is mounted ----- */

  ghost predicate ParsedDeclares(services: seq<Prepared>, id: string) {
    exists s :: s in services && Parses(s) && id in s.volumes
  }

  lemma MountedIff(services: seq<Prepared>, orders: seq<seq<string>>, id: string)
    requires AllNamed(services) && Orders(services, orders)
    ensures MountedBy(FillApp(services, orders).containers, id) <==> ParsedDeclares(services, id)
  {
    MountIntegrity(services, orders);
    KeptAreThose(services);
    var cs, kept := FillApp(services, orders).containers, Kept(services);
    if i :| 0 <= i < |cs| && Mounts(cs[i], id) {
      assert kept[i] in kept && ContainerFor(cs[i], kept[i]);
      MountNames(cs[i], kept[i], id);
    }
    if ParsedDeclares(services, id) {
      var s :| s in services && Parses(s) && id in s.volumes;
      var i :| 0 <= i < |kept| && kept[i] == s;
      assert ContainerFor(cs[i], kept[i]);
      MountNames(cs[i], s, id);
    }
  }

  ghost predicate AllMounted(services: seq<Prepared>, orders: seq<seq<string>>)
    requires Orders(services, orders)
  {
    forall id :: id in FillApp(services, orders).sources ==> MountedBy(FillApp(services, orders).containers, id)
  }

  ghost predicate EveryYieldIsDeclared(services: seq<Prepared>) {
    forall i, id :: 0 <= i < |services| && Yields(services[i], id) ==> ParsedDeclares(services, id)
  }

  // Every source is mounted, in every order, exactly if each volume that parses in a service
  // that is skipped is also declared by a service that parses in full.
  lemma NothingLeftBehindIff(services: seq<Prepared>)
    requires AllNamed(services)
    ensures (forall orders :: Orders(services, orders) ==> AllMounted(services, orders))
        <==> EveryYieldIsDeclared(services)
  {
    if EveryYieldIsDeclared(services) {
      forall orders | Orders(services, orders) ensures AllMounted(services, orders) {
        forall id | id in FillApp(services, orders).sources
            ensures MountedBy(FillApp(services, orders).containers, id) {
          UpToEnd(services, orders);
          SourceOrigin(services, orders, |services|, id);
          MountedIff(services, orders, id);
        }
      }
    }
    if forall orders :: Orders(services, orders) ==> AllMounted(services, orders) {
      forall i, id | 0 <= i < |services| && Yields(services[i], id) ensures ParsedDeclares(services, id) {
        var orders := LoudOrders(services, i, id);
        LoudIsThere(services, orders, i, id);
        assert AllMounted(services, orders);
        MountedIff(services, orders, id);
      }
    }
  }

  /* ----- Whether the map depends on the order ----- */

  // The first of the services that parse in full to declare `id`.
  ghost predicate FirstParsed(services: seq<Prepared>, j: nat, id: string) {
    && j < |services| && Parses(services[j]) && id in services[j].volumes
    && forall i :: 0 <= i < j && Parses(services[i]) ==> id !in services[i].volumes
  }

  lemma {:induction false} FirstParsedUpTo(services: seq<Prepared>, i: nat, id: string) returns (j: nat)
    requires i < |services| && Parses(services[i]) && id in services[i].volumes
    ensures j <= i && FirstParsed(services, j, id)
    decreases i
  {
    if k: nat :| k < i && Parses(services[k]) && id in services[k].volumes {
      j := FirstParsedUpTo(services, k, id);
    } else {
      j := i;
    }
  }

  ghost predicate IsFirstParsedSource(services: seq<Prepared>, id: string, v: Volume) {
    exists j: nat :: FirstParsed(services, j, id) && v == SourceOf(services[j], id)
  }

  // A volume that parses in a service that is skipped comes after a service that parses in full
  // and declares it, or agrees with the first of those.
  ghost predicate Agrees(services: seq<Prepared>, i: nat, id: string)
    requires i < |services| && Yields(services[i], id)
  {
    exists j: nat :: FirstParsed(services, j, id) && (j < i || SourceOf(services[i], id) == SourceOf(services[j], id))
  }

  ghost predicate SkippedAgree(services: seq<Prepared>) {
    forall i, id :: 0 <= i < |services| && !Parses(services[i]) && Yields(services[i], id) ==> Agrees(services, i, id)
  }

  ghost predicate SameSources(services: seq<Prepared>) {
    forall a, b :: Orders(services, a) && Orders(services, b) ==>
        FillApp(services, a).sources == FillApp(services, b).sources
  }

  lemma FirstParsedIsNew(services: seq<Prepared>, orders: seq<seq<string>>, n: nat, id: string)
    requires Orders(services, orders) && n < |services| && Parses(services[n]) && id in services[n].volumes
    requires id !in UpTo(services, orders, n)
    ensures FirstParsed(services, n, id)
  {
    forall i | 0 <= i < n && Parses(services[i]) ensures id !in services[i].volumes {
      if id in services[i].volumes { ParsedIsThere(services, orders, i, n, id); }
    }
  }

  // As long as that holds, or a string that fails comes up first wherever one does, the sources
  // are those of the first services that parse in full.
  lemma {:induction false} SourcesAreFirstParsed(services: seq<Prepared>, orders: seq<seq<string>>, n: nat, id: string)
    requires Orders(services, orders) && n <= |services| && id in UpTo(services, orders, n)
    requires SkippedAgree(services) || Quiet(services, orders, n)
    ensures IsFirstParsedSource(services, id, UpTo(services, orders, n)[id])
    decreases n
  {
    if n > 0 {
      UpToStep(services, orders, n - 1);
      if id in UpTo(services, orders, n - 1) {
        SourcesAreFirstParsed(services, orders, n - 1, id);
      } else if Parses(services[n - 1]) {
        FirstParsedIsNew(services, orders, n - 1, id);
      } else {
        var j: nat :| FirstParsed(services, j, id)
            && (j < n - 1 || SourceOf(services[n - 1], id) == SourceOf(services[j], id));
        if j < n - 1 { ParsedIsThere(services, orders, j, n - 1, id); }
      }
    }
  }

  lemma SourcesIncluded(services: seq<Prepared>, a: seq<seq<string>>, b: seq<seq<string>>, id: string)
    requires SkippedAgree(services) && Orders(services, a) && Orders(services, b)
    requires id in FillApp(services, a).sources
    ensures id in FillApp(services, b).sources && FillApp(services, b).sources[id] == FillApp(services, a).sources[id]
  {
    UpToEnd(services, a);
    UpToEnd(services, b);
    SourcesAreFirstParsed(services, a, |services|, id);
    var i: nat :| FirstParsed(services, i, id) && FillApp(services, a).sources[id] == SourceOf(services[i], id);
    ParsedIsThere(services, b, i, |services|, id);
    SourcesAreFirstParsed(services, b, |services|, id);
    var j: nat :| FirstParsed(services, j, id) && FillApp(services, b).sources[id] == SourceOf(services[j], id);
  }

  lemma SameIfAgreed(services: seq<Prepared>)
    requires SkippedAgree(services)
    ensures SameSources(services)
  {
    forall a, b | Orders(services, a) && Orders(services, b)
      ensures FillApp(services, a).sources == FillApp(services, b).sources
    {
      var x, y := FillApp(services, a).sources, FillApp(services, b).sources;
      forall id | id in x ensures id in y && y[id] == x[id] { SourcesIncluded(services, a, b, id); }
      forall id | id in y ensures id in x { SourcesIncluded(services, b, a, id); }
      assert x == y;
    }
  }

  lemma {:induction false} QuietIsParsed(services: seq<Prepared>, orders: seq<seq<string>>, n: nat, id: string)
    requires Orders(services, orders) && n <= |services| && Quiet(services, orders, n)
        && id in UpTo(services, orders, n)
    ensures exists i :: 0 <= i < n && Parses(services[i]) && id in services[i].volumes
    decreases n
  {
    if n > 0 {
      UpToStep(services, orders, n - 1);
      if id in UpTo(services, orders, n - 1) { QuietIsParsed(services, orders, n - 1, id); }
    }
  }

  // With nothing of it before, the loud service brings its own volume.
  lemma LoudIsOwn(services: seq<Prepared>, orders: seq<seq<string>>, i: nat, j: nat, id: string)
    requires Orders(services, orders) && i < |services| && Quiet(services, orders, i)
    requires Yields(services[i], id) && orders[i] != [] && orders[i][0] == id
    requires FirstParsed(services, j, id) && i <= j
    ensures id in UpTo(services, orders, i + 1) && UpTo(services, orders, i + 1)[id] == SourceOf(services[i], id)
  {
    if id in UpTo(services, orders, i) { QuietIsParsed(services, orders, i, id); }
    UpToStep(services, orders, i);
  }

  lemma AgreesIfSame(services: seq<Prepared>, i: nat, id: string)
    requires SameSources(services) && i < |services| && !Parses(services[i]) && Yields(services[i], id)
    ensures Agrees(services, i, id)
  {
    var quiet := QuietOrders(services);
    var loud := LoudOrders(services, i, id);
    LoudIsThere(services, loud, i, id);
    assert FillApp(services, quiet).sources == FillApp(services, loud).sources;
    UpToEnd(services, quiet);
    SourcesAreFirstParsed(services, quiet, |services|, id);
    var j: nat :| FirstParsed(services, j, id) && FillApp(services, quiet).sources[id] == SourceOf(services[j], id);
    if j >= i {
      LoudIsOwn(services, loud, i, j, id);
    }
  }

  // With services that are skipped too, the map of sources is the same in every order exactly
  // if that holds of each of their volumes.
  lemma SourcesSameIff(services: seq<Prepared>)
    ensures SameSources(services) <==> SkippedAgree(services)
  {
    if SkippedAgree(services) {
      SameIfAgreed(services);
    }
    if SameSources(services) {
      forall i, id | 0 <= i < |services| && !Parses(services[i]) && Yields(services[i], id)
          ensures Agrees(services, i, id) {
        AgreesIfSame(services, i, id);
      }
    }
  }
}
