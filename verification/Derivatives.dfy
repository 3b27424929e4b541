// Applying the artifacts generated for an instance: the Deployment first, then the claims and
// the Services, each in whatever order the maps are ranged in.
module Derivatives {
  import opened Resources
  import opened JsonPatch
  import opened Cluster
  import opened Generation
  import Claims

  // How a text of a kind is decoded.
  type Decoder = (Kind, string) -> Target

  datatype Attempt = Attempt(kind: Kind, target: Target)

  // The attempts made for a map of texts, taken in `order`; an empty text calls for none.
  ghost function AttemptsOf(kind: Kind, m: map<string, string>, order: seq<string>, decode: Decoder): seq<Attempt>
    requires forall n :: n in order ==> n in m
  {
    if order == [] then []
    else
      var text := m[order[|order| - 1]];
      AttemptsOf(kind, m, order[..|order| - 1], decode) + if text == "" then [] else [Attempt(kind, decode(kind, text))]
  }

  // The objects after a list of attempts, and the outcome of the last of them.
  ghost function Try(objects: Objects, attempts: seq<Attempt>, c: Context): (Objects, bool) {
    if attempts == [] then (objects, true)
    else
      var last := attempts[|attempts| - 1];
      Put(Try(objects, attempts[..|attempts| - 1], c).0, last.kind, last.target, c)
  }

  function Texts(m: map<string, Claims.Artifact>): map<string, string> {
    map n | n in m :: m[n].text
  }

  // `pvcs` and `services` are orders of what was made.
  ghost predicate AreOrders(g: Generated, pvcs: seq<string>, services: seq<string>) {
    g.Made? && Enumerates(pvcs, g.pvcs.Keys) && Enumerates(services, g.services.Keys)
  }

  // What is attempted once the Deployment has been applied.
  ghost function Plan(g: Generated, pvcs: seq<string>, services: seq<string>, decode: Decoder): seq<Attempt>
    requires AreOrders(g, pvcs, services)
  {
    AttemptsOf(VolumeClaim, Texts(g.pvcs), pvcs, decode) + AttemptsOf(Kind.Service, g.services, services, decode)
  }

  // Nothing is attempted without a Deployment, and nothing but the Deployment when that fails.
  ghost function Applied(objects: Objects, g: Generated, pvcs: seq<string>, services: seq<string>, decode: Decoder,
                         c: Context): (Objects, bool)
    requires AreOrders(g, pvcs, services)
  {
    if g.deployment == "" then (objects, true)
    else
      var (after, ok) := Put(objects, Deployment, decode(Deployment, g.deployment), c);
      if ok then Try(after, Plan(g, pvcs, services, decode), c) else (after, false)
  }

  lemma AttemptsSnoc(objects: Objects, done: seq<Attempt>, kind: Kind, m: map<string, string>, order: seq<string>,
                     n: string,
                     decode: Decoder, c: Context)
    requires n in m && forall x :: x in order ==> x in m
    ensures Try(objects, done + AttemptsOf(kind, m, order + [n], decode), c)
            == var before := Try(objects, done + AttemptsOf(kind, m, order, decode), c);
               if m[n] == "" then before else Put(before.0, kind, decode(kind, m[n]), c)
  {
    var attempted := AttemptsOf(kind, m, order, decode);
    assert (order + [n])[..|order|] == order;
    if m[n] == "" {
      assert attempted + [] == attempted;
    } else {
      var a := Attempt(kind, decode(kind, m[n]));
      assert done + (attempted + [a]) == (done + attempted) + [a];
    }
  }

  method ApplyAll(server: ApiServer, kind: Kind, m: map<string, string>, ok0: bool, decode: Decoder, c: Context,
                  ord: KeyOrder,
                  ghost objects0: Objects, ghost done: seq<Attempt>)
    returns (ok: bool, ghost order: seq<string>)
    requires Orders(ord)
    requires (server.objects, ok0) == Try(objects0, done, c)
    modifies server
    ensures Enumerates(order, m.Keys)
    ensures (server.objects, ok) == Try(objects0, done + AttemptsOf(kind, m, order, decode), c)
  {
    ok, order := ok0, [];
    var rest := m.Keys;
    assert done + [] == done;
    while rest != {}
      invariant rest <= m.Keys && Enumerates(order, m.Keys - rest)
      invariant (server.objects, ok) == Try(objects0, done + AttemptsOf(kind, m, order, decode), c)
      decreases rest
    {
      var n :| n in rest;
      rest := rest - {n};
      assert m.Keys - rest - {n} + {n} == m.Keys - rest;
      AttemptsSnoc(objects0, done, kind, m, order, n, decode, c);
      order := order + [n];
      if m[n] != "" {
        ok := server.CreateOrUpdateResource(kind, decode(kind, m[n]), c, ord);
      }
    }
  }

  // What was made is applied; a failed generation is reported, and nothing is touched for it.
  method ApplyArtifacts(server: ApiServer, g: Generated, decode: Decoder, c: Context, ord: KeyOrder)
    returns (ok: bool, ghost pvcs: seq<string>, ghost services: seq<string>)
    requires Orders(ord)
    modifies server
    ensures !g.Made? ==> ok == g.Nothing? && server.objects == old(server.objects)
    ensures g.Made? ==> AreOrders(g, pvcs, services)
    ensures g.Made? ==>
              (server.objects, ok) == Applied(old(server.objects), g, pvcs, services, decode, c)
  {
    ok, pvcs, services := !g.Failed?, [], [];
    if !g.Made? {
      return;
    }
    pvcs := SomeOrder(g.pvcs.Keys);
    services := SomeOrder(g.services.Keys);
    if g.deployment == "" {
      return;
    }
    ok := server.CreateOrUpdateResource(Deployment, decode(Deployment, g.deployment), c, ord);
    if ok {
      ghost var objects0 := server.objects;
      ok, pvcs := ApplyAll(server, VolumeClaim, Texts(g.pvcs), ok, decode, c, ord, objects0, []);
      ghost var claims := AttemptsOf(VolumeClaim, Texts(g.pvcs), pvcs, decode);
      assert [] + claims == claims;
      ok, services := ApplyAll(server, Kind.Service, g.services, ok, decode, c, ord, objects0, claims);
    }
  }

  method CreateDerivatives(server: ApiServer, app: Option<HelxApp>, user: Option<HelxUser>, t: Templates,
                           decode: Decoder,
                           c: Context, ord: KeyOrder)
    returns (ok: bool, ghost g: Generated, ghost pvcs: seq<string>, ghost services: seq<string>)
    requires Orders(ord)
    modifies server
    ensures IsGenerated(g, app, user, t)
    ensures !g.Made? ==> ok == g.Nothing? && server.objects == old(server.objects)
    ensures g.Made? ==> AreOrders(g, pvcs, services)
    ensures g.Made? ==>
              (server.objects, ok) == Applied(old(server.objects), g, pvcs, services, decode, c)
  {
    var generated, orders, order := GenerateArtifacts(app, user, t);
    g := generated;
    ok, pvcs, services := ApplyArtifacts(server, generated, decode, c, ord);
  }

  /* ----- What is left under a name ----- */

  function Find(objects: Objects, k: Key): Option<Json> {
    if k in objects then Some(objects[k]) else None
  }

  predicate IsNamed(a: Attempt, k: Key, c: Context) {
    a.target.Some? && KeyOf(a.kind, a.target.value, c.req) == k
  }

  // What an attempt makes of the object of its name.
  function After(held: Option<Json>, a: Attempt, k: Key, c: Context): Option<Json> {
    if !IsNamed(a, k, c) || k in c.faults.get then held
    else
      var doc := Named(a.target.value, k);
      NamedIsManifest(a.target.value, k);
      match held
      case Some(existing) => if k in c.faults.patch then held else Some(Outcome(existing, doc, k.kind != VolumeClaim))
      case None => if k in c.faults.create then None else Created(doc, k, c.inst)
  }

  ghost function Held(held: Option<Json>, attempts: seq<Attempt>, k: Key, c: Context): Option<Json> {
    if attempts == [] then held
    else After(Held(held, attempts[..|attempts| - 1], k, c), attempts[|attempts| - 1], k, c)
  }

  lemma PutAt(objects: Objects, a: Attempt, k: Key, c: Context)
    ensures Find(Put(objects, a.kind, a.target, c).0, k) == After(Find(objects, k), a, k, c)
  {
  }

  // Attempts act on each object by itself: what becomes of one depends on what was there under
  // its name and on the attempts of that name, in their order, and on nothing else.
  lemma {:induction false} EachByItself(objects: Objects, attempts: seq<Attempt>, k: Key, c: Context)
    ensures Find(Try(objects, attempts, c).0, k) == Held(Find(objects, k), attempts, k, c)
  {
    if attempts != [] {
      var n := |attempts| - 1;
      EachByItself(objects, attempts[..n], k, c);
      PutAt(Try(objects, attempts[..n], c).0, attempts[n], k, c);
    }
  }

  ghost predicate SomeNamed(attempts: seq<Attempt>, k: Key, c: Context) {
    exists a :: a in attempts && IsNamed(a, k, c)
  }

  lemma {:induction false} HeldByOthers(held: Option<Json>, attempts: seq<Attempt>, k: Key, c: Context)
    requires !SomeNamed(attempts, k, c)
    ensures Held(held, attempts, k, c) == held
  {
    if attempts != [] {
      var n := |attempts| - 1;
      assert attempts[n] in attempts && forall a :: a in attempts[..n] ==> a in attempts;
      HeldByOthers(held, attempts[..n], k, c);
    }
  }

  // Applying artifacts changes no object that none of them names.
  lemma OthersAreUntouched(objects: Objects, attempts: seq<Attempt>, k: Key, c: Context)
    requires !SomeNamed(attempts, k, c)
    ensures Find(Try(objects, attempts, c).0, k) == Find(objects, k)
  {
    EachByItself(objects, attempts, k, c);
    HeldByOthers(Find(objects, k), attempts, k, c);
  }

  ghost predicate OnlyNamed(attempts: seq<Attempt>, i: nat, k: Key, c: Context) {
    i < |attempts| && IsNamed(attempts[i], k, c) && forall j :: 0 <= j < |attempts| && j != i ==>
        !IsNamed(attempts[j], k, c)
  }

  lemma {:induction false} HeldByOne(held: Option<Json>, attempts: seq<Attempt>, i: nat, k: Key, c: Context)
    requires OnlyNamed(attempts, i, k, c)
    ensures Held(held, attempts, k, c) == After(held, attempts[i], k, c)
  {
    var n := |attempts| - 1;
    if i < n {
      HeldByOne(held, attempts[..n], i, k, c);
    } else {
      HeldByOthers(held, attempts[..n], k, c);
    }
  }

  /* ----- Which attempts succeed ----- */

  // An attempt for a missing object gets past its guards.
  predicate Creates(a: Attempt, k: Key, c: Context) {
    && IsNamed(a, k, c) && k !in c.faults.get && k !in c.faults.create
    && (Retained(a.target.value) || MayOwn(a.target.value, k.namespace, c.inst))
  }

  // The object is there from the start, or some attempt is bound to create it.
  ghost predicate ThereAt(objects: Objects, attempts: seq<Attempt>, k: Key, c: Context) {
    k in objects || exists a :: a in attempts && Creates(a, k, c)
  }

  lemma {:induction false} ThereIff(objects: Objects, attempts: seq<Attempt>, k: Key, c: Context)
    ensures k in Try(objects, attempts, c).0 <==> ThereAt(objects, attempts, k, c)
  {
    if attempts != [] {
      var n := |attempts| - 1;
      var init, last := attempts[..n], attempts[n];
      assert attempts == init + [last];
      ThereIff(objects, init, k, c);
      PutAt(Try(objects, init, c).0, last, k, c);
      if IsNamed(last, k, c) { NamedIsManifest(last.target.value, k); }
      assert ThereAt(objects, attempts, k, c) <==> ThereAt(objects, init, k, c) || Creates(last, k, c);
    }
  }

  // Whether attempt `i` passes its guards, in the state the earlier ones leave.
  ghost predicate SucceedsAt(objects: Objects, attempts: seq<Attempt>, i: nat, c: Context)
    requires i < |attempts|
  {
    Succeeds(Try(objects, attempts[..i], c).0, attempts[i].kind, attempts[i].target, c)
  }

  // The same told from the objects before the first attempt: the text decodes, the object can
  // be read, and it can be patched if it is there by then, and else created.
  ghost predicate Passes(objects: Objects, attempts: seq<Attempt>, i: nat, c: Context)
    requires i < |attempts|
  {
    && attempts[i].target.Some?
    && var doc, k := attempts[i].target.value, KeyOf(attempts[i].kind, attempts[i].target.value, c.req);
       && k !in c.faults.get
       && if ThereAt(objects, attempts[..i], k, c) then k !in c.faults.patch
          else k !in c.faults.create && (Retained(doc) || MayOwn(doc, k.namespace, c.inst))
  }

  lemma PassesIff(objects: Objects, attempts: seq<Attempt>, i: nat, c: Context)
    requires i < |attempts|
    ensures SucceedsAt(objects, attempts, i, c) <==> Passes(objects, attempts, i, c)
  {
    if attempts[i].target.Some? {
      ThereIff(objects, attempts[..i], KeyOf(attempts[i].kind, attempts[i].target.value, c.req), c);
    }
  }

  // The reported outcome of a list is whether its last attempt passes the guards, whatever
  // became of the others.
  lemma OutcomeIsOfTheLast(objects: Objects, attempts: seq<Attempt>, c: Context)
    ensures Try(objects, attempts, c).1 <==> attempts == [] || Passes(objects, attempts, |attempts| - 1, c)
  {
    if attempts != [] {
      var n := |attempts| - 1;
      PassesIff(objects, attempts, n, c);
      PutSucceedsIff(Try(objects, attempts[..n], c).0, attempts[n].kind, attempts[n].target, c);
    }
  }

  ghost predicate AllSucceed(objects: Objects, attempts: seq<Attempt>, c: Context) {
    forall i :: 0 <= i < |attempts| ==> SucceedsAt(objects, attempts, i, c)
  }

  ghost predicate AllPass(objects: Objects, attempts: seq<Attempt>, c: Context) {
    forall i :: 0 <= i < |attempts| ==> Passes(objects, attempts, i, c)
  }

  // All attempts succeed exactly if each of them passes, told before the first.
  lemma AllSucceedIff(objects: Objects, attempts: seq<Attempt>, c: Context)
    ensures AllSucceed(objects, attempts, c) <==> AllPass(objects, attempts, c)
  {
    forall i | 0 <= i < |attempts|
      ensures SucceedsAt(objects, attempts, i, c) <==> Passes(objects, attempts, i, c)
    {
      PassesIff(objects, attempts, i, c);
    }
  }

  // The last attempt is bound to fail, or no attempt is.
  ghost predicate NothingMasked(objects: Objects, attempts: seq<Attempt>, c: Context) {
    attempts != [] && Passes(objects, attempts, |attempts| - 1, c) ==> AllPass(objects, attempts, c)
  }

  // The report is right about the list as a whole exactly if, told before the first attempt,
  // the last one is bound to fail or none is.
  lemma ReportedRightlyIff(objects: Objects, attempts: seq<Attempt>, c: Context)
    ensures (Try(objects, attempts, c).1 <==> AllSucceed(objects, attempts, c)) <==> NothingMasked(objects, attempts, c)
  {
    OutcomeIsOfTheLast(objects, attempts, c);
    AllSucceedIff(objects, attempts, c);
  }

  // In particular a claim that fails to decode, followed by anything that succeeds, is not
  // reported.
  lemma FailureIsMasked(objects: Objects, before: seq<Attempt>, between: seq<Attempt>, last: Attempt, c: Context)
    requires var all := before + [Attempt(VolumeClaim, None)] + between + [last];
             Passes(objects, all, |all| - 1, c)
    ensures var all := before + [Attempt(VolumeClaim, None)] + between + [last];
            Try(objects, all, c).1 && !AllSucceed(objects, all, c)
  {
    var all := before + [Attempt(VolumeClaim, None)] + between + [last];
    assert all[|before|] == Attempt(VolumeClaim, None);
    assert !Passes(objects, all, |before|, c);
    OutcomeIsOfTheLast(objects, all, c);
    ReportedRightlyIff(objects, all, c);
  }

  /* ----- All artifacts of an instance ----- */

  ghost predicate OfNoKind(attempts: seq<Attempt>, kind: Kind) {
    forall a :: a in attempts ==> a.kind != kind
  }

  lemma {:induction false} KindOfAttempts(kind: Kind, m: map<string, string>, order: seq<string>, decode: Decoder)
    requires forall n :: n in order ==> n in m
    ensures forall a :: a in AttemptsOf(kind, m, order, decode) ==> a.kind == kind
  {
    if order != [] {
      KindOfAttempts(kind, m, order[..|order| - 1], decode);
    }
  }

  lemma PlanHasNoDeployment(g: Generated, pvcs: seq<string>, services: seq<string>, decode: Decoder)
    requires AreOrders(g, pvcs, services)
    ensures OfNoKind(Plan(g, pvcs, services, decode), Deployment)
  {
    KindOfAttempts(VolumeClaim, Texts(g.pvcs), pvcs, decode);
    KindOfAttempts(Kind.Service, g.services, services, decode);
  }

  lemma PlanAfterPod(objects: Objects, pod: Target, plan: seq<Attempt>, c: Context)
    requires OfNoKind(plan, Deployment)
    ensures var after := Put(objects, Deployment, pod, c).0;
            && (AllPass(after, plan, c) <==> AllPass(objects, plan, c))
            && (NothingMasked(after, plan, c) <==> NothingMasked(objects, plan, c))
  {
    var after := Put(objects, Deployment, pod, c).0;
    forall i | 0 <= i < |plan| ensures Passes(after, plan, i, c) <==> Passes(objects, plan, i, c) {
    }
  }

  ghost predicate PodPasses(objects: Objects, g: Generated, decode: Decoder, c: Context)
    requires g.Made?
  {
    g.deployment != "" && Succeeds(objects, Deployment, decode(Deployment, g.deployment), c)
  }

  // Everything there is to apply is bound to be applied.
  ghost predicate AllApplied(objects: Objects, g: Generated, plan: seq<Attempt>, decode: Decoder, c: Context)
    requires g.Made?
  {
    g.deployment != "" ==> PodPasses(objects, g, decode, c) && AllPass(objects, plan, c)
  }

  // In whatever order the claims and the Services come up: what is reported for an instance is
  // right exactly if, told from the objects as they are before any call, the Deployment is bound
  // to fail, or the last claim or Service is, or none is.
  lemma AppliedRightlyIff(objects: Objects, g: Generated, pvcs: seq<string>, services: seq<string>, decode: Decoder,
                          c: Context)
    requires AreOrders(g, pvcs, services)
    ensures var plan := Plan(g, pvcs, services, decode);
            (Applied(objects, g, pvcs, services, decode, c).1 <==> AllApplied(objects, g, plan, decode, c))
            <==> (PodPasses(objects, g, decode, c) ==> NothingMasked(objects, plan, c))
  {
    if g.deployment != "" {
      var pod, plan := decode(Deployment, g.deployment), Plan(g, pvcs, services, decode);
      PutSucceedsIff(objects, Deployment, pod, c);
      PlanHasNoDeployment(g, pvcs, services, decode);
      PlanAfterPod(objects, pod, plan, c);
      var after := Put(objects, Deployment, pod, c).0;
      OutcomeIsOfTheLast(after, plan, c);
    }
  }

  // What the cluster holds of the Deployment once the claims and Services have been applied too
  // is what its own attempt left.
  lemma DeploymentIsLeft(objects: Objects, g: Generated, pvcs: seq<string>, services: seq<string>, decode: Decoder,
                         c: Context, k: Key)
    requires AreOrders(g, pvcs, services) && PodPasses(objects, g, decode, c)
    requires IsNamed(Attempt(Deployment, decode(Deployment, g.deployment)), k, c)
    ensures var a := Attempt(Deployment, decode(Deployment, g.deployment));
            Find(Applied(objects, g, pvcs, services, decode, c).0, k)
                == After(Find(objects, k), a, k, c)
  {
    var a, plan := Attempt(Deployment, decode(Deployment, g.deployment)), Plan(g, pvcs, services, decode);
    PutSucceedsIff(objects, Deployment, a.target, c);
    PlanHasNoDeployment(g, pvcs, services, decode);
    OthersAreUntouched(Put(objects, Deployment, a.target, c).0, plan, k, c);
    PutAt(objects, a, k, c);
  }

  // What it holds under the name of a claim or Service that is the only one of that name, and
  // passes: the overlay of the target, or the target, on what was there, or what is created.
  lemma NamedIsLeft(objects: Objects, g: Generated, pvcs: seq<string>, services: seq<string>, decode: Decoder,
                    c: Context, i: nat, k: Key)
    requires AreOrders(g, pvcs, services) && PodPasses(objects, g, decode, c)
    requires OnlyNamed(Plan(g, pvcs, services, decode), i, k, c)
        && Passes(objects, Plan(g, pvcs, services, decode), i, c)
    ensures Manifest(Named(Plan(g, pvcs, services, decode)[i].target.value, k))
    ensures var doc := Named(Plan(g, pvcs, services, decode)[i].target.value, k);
            Find(Applied(objects, g, pvcs, services, decode, c).0, k)
            == if k in objects then Some(Outcome(objects[k], doc, k.kind != VolumeClaim)) else Created(doc, k, c.inst)
  {
    var pod, plan := decode(Deployment, g.deployment), Plan(g, pvcs, services, decode);
    NamedIsManifest(plan[i].target.value, k);
    PutSucceedsIff(objects, Deployment, pod, c);
    PlanHasNoDeployment(g, pvcs, services, decode);
    assert plan[i] in plan;
    PutAt(objects, Attempt(Deployment, pod), k, c);
    EachByItself(Put(objects, Deployment, pod, c).0, plan, k, c);
    HeldByOne(Find(objects, k), plan, i, k, c);
  }

  /* ----- What becomes of each text ----- */

  function NonEmpty(m: map<string, string>): set<string> {
    set n | n in m && m[n] != ""
  }

  lemma {:induction false} AttemptsAre(kind: Kind, m: map<string, string>, order: seq<string>, decode: Decoder)
    requires forall n :: n in order ==> n in m
    ensures forall a :: a in AttemptsOf(kind, m, order, decode) ==>
              exists n :: n in NonEmpty(m) && a == Attempt(kind, decode(kind, m[n]))
  {
    if order != [] {
      assert order[|order| - 1] in order;
      AttemptsAre(kind, m, order[..|order| - 1], decode);
    }
  }

  // The text is not empty and decodes to a document that goes to `k`.
  ghost predicate TextFor(kind: Kind, text: string, k: Key, decode: Decoder, c: Context) {
    text != "" && decode(kind, text).Some? && Destination(kind, decode(kind, text).value, c.req) == k
  }

  lemma {:induction false} HeldAppends(held: Option<Json>, a: seq<Attempt>, b: seq<Attempt>, k: Key, c: Context)
    ensures Held(held, a + b, k, c) == Held(Held(held, a, k, c), b, k, c)
  {
    if b == [] {
      assert a + b == a;
    } else {
      var init, last := b[..|b| - 1], b[|b| - 1];
      HeldAppends(held, a, init, k, c);
      assert a + b == (a + init) + [last] && b == init + [last];
    }
  }

  lemma HeldTextSnoc(held: Option<Json>, kind: Kind, m: map<string, string>, order: seq<string>, decode: Decoder,
                     c: Context, k: Key)
    requires order != [] && forall x :: x in order ==> x in m
    ensures var init, x := order[..|order| - 1], order[|order| - 1];
            Held(held, AttemptsOf(kind, m, order, decode), k, c)
            == if m[x] == "" then Held(held, AttemptsOf(kind, m, init, decode), k, c)
               else After(Held(held, AttemptsOf(kind, m, init, decode), k, c), Attempt(kind, decode(kind, m[x])), k, c)
  {
    var init, x := order[..|order| - 1], order[|order| - 1];
    if m[x] == "" {
      assert AttemptsOf(kind, m, init, decode) + [] == AttemptsOf(kind, m, init, decode);
    } else {
    }
  }

  // Of a range over texts only the one that goes to `k` bears on `k`.
  lemma {:induction false} HeldOfTexts(held: Option<Json>, kind: Kind, m: map<string, string>, order: seq<string>,
                                       n: string,
                                       decode: Decoder, c: Context, k: Key)
    requires (forall x :: x in order ==> x in m) && (forall i, j :: 0 <= i < j < |order| ==> order[i] != order[j])
    requires n in m && TextFor(kind, m[n], k, decode, c)
    requires forall x :: x in m && x != n ==> !TextFor(kind, m[x], k, decode, c)
    ensures Held(held, AttemptsOf(kind, m, order, decode), k, c)
            == if n in order then After(held, Attempt(kind, decode(kind, m[n])), k, c) else held
  {
    if order != [] {
      var init, x := order[..|order| - 1], order[|order| - 1];
      assert x in order && x !in init;
      HeldOfTexts(held, kind, m, init, n, decode, c, k);
      HeldTextSnoc(held, kind, m, order, decode, c, k);
      assert n in order <==> n in init || n == x;
      assert x != n && m[x] != "" ==> !IsNamed(Attempt(kind, decode(kind, m[x])), k, c);
    }
  }

  lemma NoTextHeld(held: Option<Json>, kind: Kind, m: map<string, string>, order: seq<string>, decode: Decoder,
                   c: Context, k: Key)
    requires forall x :: x in order ==> x in m
    requires forall x :: x in m ==> !TextFor(kind, m[x], k, decode, c)
    ensures Held(held, AttemptsOf(kind, m, order, decode), k, c) == held
  {
    AttemptsAre(kind, m, order, decode);
    HeldByOthers(held, AttemptsOf(kind, m, order, decode), k, c);
  }

  // Once the Deployment is applied, an object of another kind is what its own attempts make of
  // what was there before.
  lemma AppliedAt(objects: Objects, g: Generated, pvcs: seq<string>, services: seq<string>, decode: Decoder,
                  c: Context, k: Key)
    requires AreOrders(g, pvcs, services) && g.deployment != ""
    requires Put(objects, Deployment, decode(Deployment, g.deployment), c).1
    ensures Find(Applied(objects, g, pvcs, services, decode, c).0, k)
            == Held(Held(Find(Put(objects, Deployment, decode(Deployment, g.deployment), c).0, k),
                         AttemptsOf(VolumeClaim, Texts(g.pvcs), pvcs, decode), k, c),
                    AttemptsOf(Kind.Service, g.services, services, decode), k, c)
    ensures k.kind != Deployment ==>
              Find(Put(objects, Deployment, decode(Deployment, g.deployment), c).0, k) == Find(objects, k)
  {
    var after := Put(objects, Deployment, decode(Deployment, g.deployment), c).0;
    var claims := AttemptsOf(VolumeClaim, Texts(g.pvcs), pvcs, decode);
    EachByItself(after, Plan(g, pvcs, services, decode), k, c);
    HeldAppends(Find(after, k), claims, AttemptsOf(Kind.Service, g.services, services, decode), k, c);
    PutAt(objects, Attempt(Deployment, decode(Deployment, g.deployment)), k, c);
  }

  // Each claim that was made is applied: what the cluster holds of it afterwards is what its own
  // create-or-patch, on its own, leaves.
  lemma ClaimIsApplied(objects: Objects, g: Generated, pvcs: seq<string>, services: seq<string>, decode: Decoder,
                       c: Context,
                       n: string, k: Key)
    requires AreOrders(g, pvcs, services) && g.deployment != ""
    requires Put(objects, Deployment, decode(Deployment, g.deployment), c).1
    requires n in g.pvcs && TextFor(VolumeClaim, g.pvcs[n].text, k, decode, c)
    requires forall x :: x in g.pvcs && x != n ==> !TextFor(VolumeClaim, g.pvcs[x].text, k, decode, c)
    ensures Find(Applied(objects, g, pvcs, services, decode, c).0, k)
            == Find(Put(objects, VolumeClaim, decode(VolumeClaim, g.pvcs[n].text), c).0, k)
  {
    AppliedAt(objects, g, pvcs, services, decode, c, k);
    HeldOfTexts(Find(objects, k), VolumeClaim, Texts(g.pvcs), pvcs, n, decode, c, k);
    var a := Attempt(VolumeClaim, decode(VolumeClaim, g.pvcs[n].text));
    NoTextHeld(After(Find(objects, k), a, k, c), Kind.Service, g.services, services, decode, c, k);
    PutAt(objects, a, k, c);
  }

  // So is each Service.
  lemma ServiceIsApplied(objects: Objects, g: Generated, pvcs: seq<string>, services: seq<string>, decode: Decoder,
                         c: Context,
                         n: string, k: Key)
    requires AreOrders(g, pvcs, services) && g.deployment != ""
    requires Put(objects, Deployment, decode(Deployment, g.deployment), c).1
    requires n in g.services && TextFor(Kind.Service, g.services[n], k, decode, c)
    requires forall x :: x in g.services && x != n ==> !TextFor(Kind.Service, g.services[x], k, decode, c)
    ensures Find(Applied(objects, g, pvcs, services, decode, c).0, k)
            == Find(Put(objects, Kind.Service, decode(Kind.Service, g.services[n]), c).0, k)
  {
    AppliedAt(objects, g, pvcs, services, decode, c, k);
    NoTextHeld(Find(objects, k), VolumeClaim, Texts(g.pvcs), pvcs, decode, c, k);
    HeldOfTexts(Find(objects, k), Kind.Service, g.services, services, n, decode, c, k);
    PutAt(objects, Attempt(Kind.Service, decode(Kind.Service, g.services[n])), k, c);
  }

  // Some text of what was made goes to `k`.
  ghost predicate SomeTextFor(g: Generated, k: Key, decode: Decoder, c: Context)
    requires g.Made?
  {
    || TextFor(Deployment, g.deployment, k, decode, c)
    || (exists n :: n in g.pvcs && TextFor(VolumeClaim, g.pvcs[n].text, k, decode, c))
    || (exists n :: n in g.services && TextFor(Kind.Service, g.services[n], k, decode, c))
  }

  // And nothing else changes: an object that no text goes to is as it was.
  lemma ChangedIsMade(objects: Objects, g: Generated, pvcs: seq<string>, services: seq<string>, decode: Decoder,
                      c: Context, k: Key)
    requires AreOrders(g, pvcs, services)
    requires Find(Applied(objects, g, pvcs, services, decode, c).0, k) != Find(objects, k)
    ensures SomeTextFor(g, k, decode, c)
  {
    if !SomeTextFor(g, k, decode, c) && g.deployment != "" {
      var pod := decode(Deployment, g.deployment);
      PutAt(objects, Attempt(Deployment, pod), k, c);
      if Put(objects, Deployment, pod, c).1 {
        AppliedAt(objects, g, pvcs, services, decode, c, k);
        NoTextHeld(Find(objects, k), VolumeClaim, Texts(g.pvcs), pvcs, decode, c, k);
        NoTextHeld(Find(objects, k), Kind.Service, g.services, services, decode, c, k);
      }
    }
  }

  // A Deployment that cannot be applied keeps everything else from being applied, and is
  // reported; one without a text does so unreported.
  lemma NothingWithoutDeployment(objects: Objects, g: Generated, pvcs: seq<string>, services: seq<string>,
                                 decode: Decoder, c: Context)
    requires AreOrders(g, pvcs, services)
    requires g.deployment == "" || !Put(objects, Deployment, decode(Deployment, g.deployment), c).1
    ensures Applied(objects, g, pvcs, services, decode, c) == (objects, g.deployment == "")
  {
    PutSucceedsIff(objects, Deployment, decode(Deployment, g.deployment), c);
  }

  // The text decodes, and none of the calls it can lead to fails.
  ghost predicate Fit(kind: Kind, text: string, decode: Decoder, c: Context) {
    && decode(kind, text).Some?
    && var doc := decode(kind, text).value;
       var k := Destination(kind, doc, c.req);
       && k !in c.faults.get && k !in c.faults.patch && k !in c.faults.create
       && (HasRetainLabel(doc) || (k.namespace == c.inst.namespace && NoOtherController(doc, c.inst)))
  }

  ghost predicate AllFit(g: Generated, decode: Decoder, c: Context)
    requires g.Made?
  {
    && (forall n :: n in g.pvcs && g.pvcs[n].text != "" ==> Fit(VolumeClaim, g.pvcs[n].text, decode, c))
    && (forall n :: n in g.services && g.services[n] != "" ==> Fit(Kind.Service, g.services[n], decode, c))
  }

  lemma FitPasses(objects: Objects, attempts: seq<Attempt>, i: nat, text: string, decode: Decoder, c: Context)
    requires i < |attempts| && attempts[i].target == decode(attempts[i].kind, text)
    requires Fit(attempts[i].kind, text, decode, c)
    ensures Passes(objects, attempts, i, c)
  {
  }

  lemma PlanAre(g: Generated, pvcs: seq<string>, services: seq<string>, decode: Decoder, a: Attempt)
    requires AreOrders(g, pvcs, services) && a in Plan(g, pvcs, services, decode)
    ensures || (exists n :: n in g.pvcs && g.pvcs[n].text != ""
                  && a == Attempt(VolumeClaim, decode(VolumeClaim, g.pvcs[n].text)))
            || (exists n :: n in g.services && g.services[n] != ""
                  && a == Attempt(Kind.Service, decode(Kind.Service, g.services[n])))
  {
    AttemptsAre(VolumeClaim, Texts(g.pvcs), pvcs, decode);
    AttemptsAre(Kind.Service, g.services, services, decode);
    if a in AttemptsOf(VolumeClaim, Texts(g.pvcs), pvcs, decode) {
      var n :| n in NonEmpty(Texts(g.pvcs)) && a == Attempt(VolumeClaim, decode(VolumeClaim, Texts(g.pvcs)[n]));
      assert n in g.pvcs && g.pvcs[n].text != "";
    }
  }

  // When nothing can fail nothing is reported to.
  lemma NothingFailsNothingReported(objects: Objects, g: Generated, pvcs: seq<string>, services: seq<string>,
                                    decode: Decoder, c: Context)
    requires AreOrders(g, pvcs, services) && AllFit(g, decode, c)
    requires g.deployment != "" ==> Put(objects, Deployment, decode(Deployment, g.deployment), c).1
    ensures Applied(objects, g, pvcs, services, decode, c).1
  {
    if g.deployment != "" {
      var after := Put(objects, Deployment, decode(Deployment, g.deployment), c).0;
      var plan := Plan(g, pvcs, services, decode);
      OutcomeIsOfTheLast(after, plan, c);
      if plan != [] {
        var a := plan[|plan| - 1];
        PlanAre(g, pvcs, services, decode, a);
        if n :| n in g.pvcs && g.pvcs[n].text != "" && a == Attempt(VolumeClaim, decode(VolumeClaim, g.pvcs[n].text)) {
          FitPasses(after, plan, |plan| - 1, g.pvcs[n].text, decode, c);
        } else {
          var n :| n in g.services && g.services[n] != ""
                   && a == Attempt(Kind.Service, decode(Kind.Service, g.services[n]));
          FitPasses(after, plan, |plan| - 1, g.services[n], decode, c);
        }
      }
    }
  }

  /* ----- Texts that share a name ----- */

  // Every text of the map that is not empty decodes to a document for `k`, which is no claim,
  // and each of them could be applied.
  ghost predicate ShareName(objects: Objects, m: map<string, string>, k: Key, decode: Decoder, c: Context) {
    && k.kind != VolumeClaim && k !in c.faults.get && k !in c.faults.patch
    && (forall n :: n in NonEmpty(m) ==> IsNamed(Attempt(k.kind, decode(k.kind, m[n])), k, c))
    && (k !in objects ==> forall n :: n in NonEmpty(m) ==> Creates(Attempt(k.kind, decode(k.kind, m[n])), k, c))
  }

  function DocOf(m: map<string, string>, n: string, k: Key, decode: Decoder): Json
    requires n in m && decode(k.kind, m[n]).Some?
  {
    Named(decode(k.kind, m[n]).value, k)
  }

  // `held` is the document of `last`, as it is if it patched an object that was there, and as
  // created if it was the only one.
  ghost predicate IsLastDocument(held: Option<Json>, objects: Objects, m: map<string, string>, last: string,
                                 only: bool, k: Key, decode: Decoder, c: Context) {
    && last in m && decode(k.kind, m[last]).Some? && Manifest(DocOf(m, last, k, decode))
    && held.Some?
    && held == if k in objects || !only then Some(DocOf(m, last, k, decode))
               else Created(DocOf(m, last, k, decode), k, c.inst)
  }

  // What is left after attempts that all go to the one object is the last document alone.
  lemma {:induction false} HeldInOrder(objects: Objects, m: map<string, string>, order: seq<string>, k: Key,
                                       decode: Decoder, c: Context)
    requires ShareName(objects, m, k, decode, c) && order != []
    requires forall n :: n in order ==> n in m && m[n] != ""
    ensures IsLastDocument(Held(Find(objects, k), AttemptsOf(k.kind, m, order, decode), k, c),
                           objects, m, order[|order| - 1], |order| == 1, k, decode, c)
  {
    var init, last := order[..|order| - 1], order[|order| - 1];
    assert last in order && last in NonEmpty(m);
    assert IsNamed(Attempt(k.kind, decode(k.kind, m[last])), k, c);
    NamedIsManifest(decode(k.kind, m[last]).value, k);
    HeldTextSnoc(Find(objects, k), k.kind, m, order, decode, c, k);
    if init != [] {
      assert init[|init| - 1] in order;
      HeldInOrder(objects, m, init, k, decode, c);
    }
  }

  // The texts of an order that are not empty, and the attempts they call for.
  ghost function Filled(m: map<string, string>, order: seq<string>): seq<string>
    requires forall n :: n in order ==> n in m
  {
    if order == [] then []
    else
      var n := order[|order| - 1];
      Filled(m, order[..|order| - 1]) + if m[n] == "" then [] else [n]
  }

  lemma {:induction false} FilledMembers(m: map<string, string>, order: seq<string>)
    requires forall n :: n in order ==> n in m
    requires forall i, j :: 0 <= i < j < |order| ==> order[i] != order[j]
    ensures Enumerates(Filled(m, order), Elements(order) * NonEmpty(m))
  {
    if order != [] {
      var init, n := order[..|order| - 1], order[|order| - 1];
      assert n in order && n !in init;
      FilledMembers(m, init);
      if m[n] != "" {
        assert Elements(order) * NonEmpty(m) == Elements(init) * NonEmpty(m) + {n};
      } else {
        assert Elements(order) * NonEmpty(m) == Elements(init) * NonEmpty(m);
        assert Filled(m, order) == Filled(m, init);
      }
    }
  }

  lemma {:induction false} AttemptsOfFilled(kind: Kind, m: map<string, string>, order: seq<string>, decode: Decoder)
    requires forall n :: n in order ==> n in m
    ensures forall n :: n in Filled(m, order) ==> n in m && m[n] != ""
    ensures AttemptsOf(kind, m, order, decode) == AttemptsOf(kind, m, Filled(m, order), decode)
  {
    if order != [] {
      var init, n := order[..|order| - 1], order[|order| - 1];
      AttemptsOfFilled(kind, m, init, decode);
      if m[n] == "" {
        assert Filled(m, order) == Filled(m, init);
        assert AttemptsOf(kind, m, order, decode) == AttemptsOf(kind, m, init, decode);
      } else {
        assert Filled(m, order)[..|Filled(m, init)|] == Filled(m, init);
      }
    }
  }

  lemma FilledOrder(m: map<string, string>, order: seq<string>)
    requires Enumerates(order, m.Keys)
    ensures Enumerates(Filled(m, order), NonEmpty(m)) && |Filled(m, order)| == |NonEmpty(m)|
  {
    FilledMembers(m, order);
    assert Elements(order) * NonEmpty(m) == NonEmpty(m);
    EnumerationLength(Filled(m, order), NonEmpty(m));
  }

  // All attempts go to `k`, and each of them passes.
  lemma AllForOne(objects: Objects, attempts: seq<Attempt>, k: Key, c: Context)
    requires attempts != [] && k.kind != VolumeClaim && k !in c.faults.get && k !in c.faults.patch
    requires forall a :: a in attempts ==> IsNamed(a, k, c) && (k !in objects ==> Creates(a, k, c))
    ensures Try(objects, attempts, c).1
    ensures forall x :: x != k ==> Find(Try(objects, attempts, c).0, x) == Find(objects, x)
  {
    OutcomeIsOfTheLast(objects, attempts, c);
    assert attempts[|attempts| - 1] in attempts;
    forall x | x != k ensures Find(Try(objects, attempts, c).0, x) == Find(objects, x) {
      OthersAreUntouched(objects, attempts, x, c);
    }
  }

  lemma OneChanged(objects: Objects, after: Objects, k: Key, doc: Json)
    requires Find(after, k) == Some(doc) && forall x :: x != k ==> Find(after, x) == Find(objects, x)
    ensures after == objects[k := doc]
  {
    forall x ensures x in after <==> x in objects[k := doc] {
      assert x != k ==> Find(after, x) == Find(objects, x);
    }
    forall x | x in after ensures after[x] == objects[k := doc][x] {
      assert x != k ==> Find(after, x) == Find(objects, x);
    }
  }

  // A range over the map leaves, of several texts for one object, the last that is not empty.
  lemma LastInOrderIsLeft(objects: Objects, m: map<string, string>, order: seq<string>, k: Key, decode: Decoder,
                          c: Context)
    requires ShareName(objects, m, k, decode, c) && Enumerates(order, m.Keys) && |NonEmpty(m)| > 1
    ensures var filled := Filled(m, order);
            && filled != [] && var last := filled[|filled| - 1];
               && last in m && m[last] != "" && decode(k.kind, m[last]).Some?
               && Try(objects, AttemptsOf(k.kind, m, order, decode), c)
                   == (objects[k := DocOf(m, last, k, decode)], true)
  {
    FilledOrder(m, order);
    AttemptsOfFilled(k.kind, m, order, decode);
    var filled, attempts := Filled(m, order), AttemptsOf(k.kind, m, order, decode);
    var last := filled[|filled| - 1];
    assert last in filled;
    HeldInOrder(objects, m, filled, k, decode, c);
    EachByItself(objects, attempts, k, c);
    AttemptsAre(k.kind, m, order, decode);
    assert attempts != [];
    AllForOne(objects, attempts, k, c);
    OneChanged(objects, Try(objects, attempts, c).0, k, DocOf(m, last, k, decode));
  }

  ghost predicate SameDocuments(m: map<string, string>, k: Key, decode: Decoder) {
    forall a, b :: a in NonEmpty(m) && b in NonEmpty(m) && decode(k.kind, m[a]).Some? && decode(k.kind, m[b]).Some? ==>
      DocOf(m, a, k, decode) == DocOf(m, b, k, decode)
  }

  ghost predicate SameInEveryOrder(objects: Objects, m: map<string, string>, k: Key, decode: Decoder, c: Context) {
    forall a, b :: Enumerates(a, m.Keys) && Enumerates(b, m.Keys) ==>
      Try(objects, AttemptsOf(k.kind, m, a, decode), c) == Try(objects, AttemptsOf(k.kind, m, b, decode), c)
  }

  lemma SameIfOne(objects: Objects, m: map<string, string>, a: seq<string>, b: seq<string>, k: Key, decode: Decoder,
                  c: Context)
    requires Enumerates(a, m.Keys) && Enumerates(b, m.Keys) && |NonEmpty(m)| <= 1
    ensures AttemptsOf(k.kind, m, a, decode) == AttemptsOf(k.kind, m, b, decode)
  {
    FilledOrder(m, a);
    FilledOrder(m, b);
    AttemptsOfFilled(k.kind, m, a, decode);
    AttemptsOfFilled(k.kind, m, b, decode);
    assert Filled(m, a) == Filled(m, b) by {
      if Filled(m, a) != [] {
        assert Filled(m, a)[0] in Filled(m, b);
      }
    }
  }

  lemma LastDocument(objects: Objects, m: map<string, string>, n: string, k: Key, decode: Decoder,
                     c: Context) returns (order: seq<string>)
    requires ShareName(objects, m, k, decode, c) && |NonEmpty(m)| > 1 && n in NonEmpty(m)
    ensures Enumerates(order, m.Keys) && decode(k.kind, m[n]).Some?
    ensures Try(objects, AttemptsOf(k.kind, m, order, decode), c) == (objects[k := DocOf(m, n, k, decode)], true)
  {
    order := OrderEndingIn(m.Keys, n);
    LastInOrderIsLeft(objects, m, order, k, decode, c);
  }

  lemma OneMember(s: set<string>)
    requires |s| <= 1
    ensures forall a, b :: a in s && b in s ==> a == b
  {
    forall a, b | a in s && b in s ensures a == b {
      if a != b {
        SubsetSize({a, b}, s);
      }
    }
  }

  // The result of such a range is the same in every order exactly if the documents agree.
  lemma OneNameOrderIff(objects: Objects, m: map<string, string>, k: Key, decode: Decoder, c: Context)
    requires ShareName(objects, m, k, decode, c)
    ensures SameInEveryOrder(objects, m, k, decode, c) <==> SameDocuments(m, k, decode)
  {
    if |NonEmpty(m)| <= 1 {
      forall a, b | Enumerates(a, m.Keys) && Enumerates(b, m.Keys)
        ensures AttemptsOf(k.kind, m, a, decode) == AttemptsOf(k.kind, m, b, decode)
      {
        SameIfOne(objects, m, a, b, k, decode, c);
      }
      OneMember(NonEmpty(m));
    } else {
      if SameDocuments(m, k, decode) {
        forall a, b | Enumerates(a, m.Keys) && Enumerates(b, m.Keys)
          ensures Try(objects, AttemptsOf(k.kind, m, a, decode), c) == Try(objects, AttemptsOf(k.kind, m, b, decode), c)
        {
          LastInOrderIsLeft(objects, m, a, k, decode, c);
          LastInOrderIsLeft(objects, m, b, k, decode, c);
        }
      }
      if SameInEveryOrder(objects, m, k, decode, c) {
        forall x, y | x in NonEmpty(m) && y in NonEmpty(m) && decode(k.kind, m[x]).Some? && decode(k.kind, m[y]).Some?
          ensures DocOf(m, x, k, decode) == DocOf(m, y, k, decode)
        {
          var a := LastDocument(objects, m, x, k, decode, c);
          var b := LastDocument(objects, m, y, k, decode, c);
          assert objects[k := DocOf(m, x, k, decode)][k] == objects[k := DocOf(m, y, k, decode)][k];
        }
      }
    }
  }
}
