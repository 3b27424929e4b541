// Whole runs of the cluster: what the controller, the API server and the garbage collector do
// to it, and what survives all of them.
module Retention {
  import opened Resources
  import opened JsonPatch
  import opened Cluster
  import opened VolumeParser
  import opened ClaimTemplate

  /* ----- Runs ----- */

  datatype Event =
    | Reconcile(kind: Kind, target: Target, c: Context)
    | Cascade(inst: Instance, removed: set<Key>)      // a DeleteDerivatives, complete or cut short
    | Collect(key: Key, live: set<string>)            // the garbage collector, given the live owners
    | Serve(key: Key, doc: Json)                      // the API server and other controllers

  // `retained`: the claims created with the retain label.
  datatype State = State(objects: Objects, retained: set<Key>)

  predicate Enabled(s: State, e: Event) {
    match e
    case Reconcile(_, target, _) => target.Some? ==> Rendered(target.value)
    case Cascade(inst, removed) => removed <= Doomed(s.objects, ALL_KINDS, inst)
    case Collect(key, live) => key in s.objects && Owners(s.objects[key]) != {} && Owners(s.objects[key]) !! live
    case Serve(key, doc) =>
      && key in s.objects
      && Label(doc, RETAIN) == Label(s.objects[key], RETAIN)
      && OwnerReferences(doc) == OwnerReferences(s.objects[key])
  }

  function Effect(objects: Objects, e: Event): Objects
  {
    match e
    case Reconcile(kind, target, c) => Put(objects, kind, target, c).0
    case Cascade(_, removed) => objects - removed
    case Collect(key, _) => objects - {key}
    case Serve(key, doc) => objects[key := doc]
  }

  function CreatedRetained(objects: Objects, e: Event): set<Key>
  {
    if e.Reconcile? && e.kind == VolumeClaim && e.target.Some? && Retained(e.target.value)
       && KeyOf(e.kind, e.target.value, e.c.req) !in objects
           && KeyOf(e.kind, e.target.value, e.c.req) in Effect(objects, e)
    then {KeyOf(e.kind, e.target.value, e.c.req)} else {}
  }

  function Next(s: State, e: Event): State
    requires Enabled(s, e)
  {
    State(Effect(s.objects, e), s.retained + CreatedRetained(s.objects, e))
  }

  ghost predicate IsRun(ss: seq<State>, es: seq<Event>) {
    && |ss| == |es| + 1 && ss[0].retained == {}
    && forall i :: 0 <= i < |es| ==> Enabled(ss[i], es[i]) && ss[i + 1] == Next(ss[i], es[i])
  }

  ghost predicate SafeAt(objects: Objects, k: Key) {
    k.kind == VolumeClaim && k in objects && Retained(objects[k]) && OwnerReferences(objects[k]).None?
  }

  ghost predicate Safe(s: State) {
    forall k :: k in s.retained ==>
      SafeAt(s.objects, k)
  }

  /* ----- What the events do ----- */

  // A complete cascade removes what is labelled with the instance's UUID in its namespace, but
  // for what is retained, and nothing else; a collection removes the one object, an outside
  // write changes the one.
  lemma EventsTakeEffect(s: State, e: Event)
    requires Enabled(s, e)
    ensures e.Cascade? && e.removed == Doomed(s.objects, ALL_KINDS, e.inst) ==>
              && (forall k :: k in Next(s, e).objects <==>
                    && k in s.objects
                    && !(k.namespace == e.inst.namespace
                         && LabelledFor(s.objects[k], e.inst) && !Retained(s.objects[k])))
              && (forall k :: k in Next(s, e).objects ==> Next(s, e).objects[k] == s.objects[k])
    ensures e.Cascade? ==> Next(s, e).objects.Keys == s.objects.Keys - e.removed
    ensures e.Collect? ==> Next(s, e).objects == s.objects - {e.key}
    ensures e.Serve? ==> Next(s, e).objects == s.objects[e.key := e.doc]
    ensures e.Reconcile? ==> Next(s, e).objects == Put(s.objects, e.kind, e.target, e.c).0
  {
    if e.Cascade? {
      forall k | k in s.objects
        ensures k in Doomed(s.objects, ALL_KINDS, e.inst) <==>
                  k.namespace == e.inst.namespace && LabelledFor(s.objects[k], e.inst) && !Retained(s.objects[k])
      {
        DoomedIff(s.objects, e.inst, k);
      }
    }
  }

  /* ----- What an overlay keeps ----- */

  lemma OverlayField(a: Json, b: Json, name: string)
    requires a.Obj? && b.Obj?
    ensures Field(Some(Overlay(a, b)), name)
            == if name !in b.fields then Field(Some(a), name)
               else if name !in a.fields then Field(Some(b), name)
               else Some(Overlay(a.fields[name], b.fields[name]))
  {
  }

  lemma OverlayKeepsMetadata(a: Json, b: Json)
    requires Rendered(b) && Field(Some(a), META).Some? && Field(Some(a), META).value.Obj?
    ensures OwnerReferences(Overlay(a, b)) == OwnerReferences(a)
    ensures Retained(a) ==> Retained(Overlay(a, b))
    ensures Retained(b) && (Meta(a, LABELS).Some? ==> Meta(a, LABELS).value.Obj?) ==> Retained(Overlay(a, b))
  {
    var am, bm := a.fields[META], b.fields[META];
    OverlayField(a, b, META);
    OverlayField(am, bm, OWNER_REFERENCES);
    OverlayField(am, bm, LABELS);
    if LABELS in am.fields && LABELS in bm.fields && am.fields[LABELS].Obj? {
      OverlayField(am.fields[LABELS], bm.fields[LABELS], RETAIN);
    }
  }

  /* ----- A retained claim survives every run ----- */

  lemma PatchKeepsSafe(objects: Objects, target: Json, c: Context, kind: Kind, k: Key)
    requires Rendered(target) && SafeAt(objects, k)
    ensures SafeAt(Put(objects, kind, Some(target), c).0, k)
  {
    var key := KeyOf(kind, target, c.req);
    NamedIsManifest(target, key);
    if key == k {
      OverlayKeepsMetadata(objects[k], Named(target, k));
    }
  }

  lemma ReconcileIsSafe(s: State, e: Event)
    requires Safe(s) && Enabled(s, e) && e.Reconcile?
    ensures Safe(Next(s, e))
  {
    forall k | k in Next(s, e).retained ensures SafeAt(Next(s, e).objects, k) {
      if k in s.retained {
        assert SafeAt(s.objects, k);
        if e.target.Some? { PatchKeepsSafe(s.objects, e.target.value, e.c, e.kind, k); }
      } else {
      }
    }
  }

  lemma StepIsSafe(s: State, e: Event)
    requires Safe(s) && Enabled(s, e)
    ensures Safe(Next(s, e))
  {
    match e
    case Reconcile(_, _, _) => ReconcileIsSafe(s, e);
    case Collect(key, _) => assert Owners(s.objects[key]) != {};
    case _ =>
  }

  lemma {:induction false} RetainedClaimSurvives(ss: seq<State>, es: seq<Event>, n: nat)
    requires IsRun(ss, es) && n < |ss|
    ensures Safe(ss[n])
    ensures forall m :: 0 <= m <= n ==> ss[m].retained <= ss[n].retained
  {
    if n > 0 {
      RetainedClaimSurvives(ss, es, n - 1);
      assert Enabled(ss[n - 1], es[n - 1]);
      StepIsSafe(ss[n - 1], es[n - 1]);
    }
  }

  // Neither the controller nor the garbage collector ever removes one: no event that removes
  // objects can name it.
  lemma RetainedClaimIsNeverRemoved(ss: seq<State>, es: seq<Event>, n: nat, k: Key)
    requires IsRun(ss, es) && n < |es| && k in ss[n].retained
    ensures es[n].Cascade? ==> k !in es[n].removed
    ensures es[n].Collect? ==> k != es[n].key
    ensures k in ss[n + 1].objects
  {
    RetainedClaimSurvives(ss, es, n);
    RetainedClaimSurvives(ss, es, n + 1);
    assert Enabled(ss[n], es[n]);
    assert k in ss[n + 1].retained;
  }

  // From the volume's options to every later state: once the claim rendered for a volume with
  // the retain option has been created, it is there, labelled and without an owner, for good.
  lemma RetainOptionSurvives(ss: seq<State>, es: seq<Event>, n: nat, m: nat, v: Volume, uuid: string, expand: Expansion)
    requires IsRun(ss, es) && n < m < |ss|
    requires "claim" in v.attr && IsSet(v.attr, "retain") && PvcTemplate(v, uuid, expand).Some?
    requires es[n].Reconcile? && es[n].kind == VolumeClaim && es[n].target == PvcTemplate(v, uuid, expand)
    requires var k := KeyOf(VolumeClaim, PvcTemplate(v, uuid, expand).value, es[n].c.req);
             k !in ss[n].objects && k in ss[n + 1].objects
    ensures var k := KeyOf(VolumeClaim, PvcTemplate(v, uuid, expand).value, es[n].c.req);
            && k.namespace == es[n].c.req.namespace
            && (expand(v, v.attr["claim"]).Some? && expand(v, v.attr["claim"]).value != "" ==>
                k.name == expand(v, v.attr["claim"]).value)
            && k in ss[m].objects && Retained(ss[m].objects[k]) && OwnerReferences(ss[m].objects[k]).None?
  {
    PvcTemplateRetains(v, uuid, expand);
    assert Enabled(ss[n], es[n]) && ss[n + 1] == Next(ss[n], es[n]);
    RetainedClaimSurvives(ss, es, m);
  }

  // The label alone does not protect: a claim created without it keeps its owner when a later
  // patch adds it, and goes with that owner.
  lemma RetainAddedLateIsCollected(s: State, e: Event, live: set<string>)
    requires Enabled(s, e) && e.Reconcile? && e.kind == VolumeClaim && e.target.Some? && Retained(e.target.value)
    requires var k := KeyOf(e.kind, e.target.value, e.c.req);
             && k in s.objects && k !in e.c.faults.get && k !in e.c.faults.patch
             && Field(Some(s.objects[k]), META).Some? && Field(Some(s.objects[k]), META).value.Obj?
             && (Meta(s.objects[k], LABELS).Some? ==> Meta(s.objects[k], LABELS).value.Obj?)
             && Owners(s.objects[k]) != {} && Owners(s.objects[k]) !! live
    ensures var k := KeyOf(e.kind, e.target.value, e.c.req);
            && Retained(Next(s, e).objects[k]) && Enabled(Next(s, e), Collect(k, live))
            && Next(Next(s, e), Collect(k, live)).objects == Next(s, e).objects - {k}
  {
    var k := KeyOf(e.kind, e.target.value, e.c.req);
    NamedIsManifest(e.target.value, k);
    OverlayKeepsMetadata(s.objects[k], Named(e.target.value, k));
  }

  // A patch of a Deployment or Service leaves exactly the target, which has no owner, so the
  // garbage collector never takes it, whatever has become of the instance.
  lemma PatchedWorkloadHasNoOwner(s: State, e: Event, live: set<string>)
    requires Enabled(s, e) && e.Reconcile? && e.kind != VolumeClaim && e.target.Some?
    requires var k := KeyOf(e.kind, e.target.value, e.c.req);
             k in s.objects && k !in e.c.faults.get && k !in e.c.faults.patch
    ensures var k := KeyOf(e.kind, e.target.value, e.c.req);
            && Next(s, e).objects[k] == Named(e.target.value, k)
            && Owners(Next(s, e).objects[k]) == {}
            && !Enabled(Next(s, e), Collect(k, live))
  {
    NamedIsManifest(e.target.value, KeyOf(e.kind, e.target.value, e.c.req));
  }

  // A new object is owned by its instance, unless retained, and only in the instance's own
  // namespace; a reconcile requested from another namespace creates nothing that is not retained.
  lemma CreatedObjectIsOwned(s: State, e: Event)
    requires Enabled(s, e) && e.Reconcile? && e.target.Some?
    requires var k := KeyOf(e.kind, e.target.value, e.c.req);
             k !in s.objects && k !in e.c.faults.get && k !in e.c.faults.create
    ensures var k := KeyOf(e.kind, e.target.value, e.c.req);
            && (k in Next(s, e).objects <==> Retained(e.target.value) || k.namespace == e.c.inst.namespace)
            && (k in Next(s, e).objects ==>
                  Owners(Next(s, e).objects[k]) == if Retained(e.target.value) then {} else {e.c.inst.uid})
  {
    var k := KeyOf(e.kind, e.target.value, e.c.req);
    NamedIsManifest(e.target.value, k);
    var doc := Named(e.target.value, k);
    OwnedByAddsOwner(doc, e.c.inst.uid);
  }
}
