// The cluster as the controller sees it: objects by kind, namespace and name, each a JSON
// document that carries its labels and its owner references.
module Cluster {
  import opened Resources
  import opened JsonPatch

  datatype Kind = Deployment | VolumeClaim | Service

  datatype Key = Key(kind: Kind, namespace: string, name: string)

  type Objects = map<Key, Json>

  // What a HelxInst contributes: where it lives, its identity as an owner, and the UUID its
  // objects are labelled with.
  datatype Instance = Instance(namespace: string, uid: string, uuid: string)

  datatype Request = Request(namespace: string, name: string)

  // The API calls that fail during one reconcile.
  datatype Faults = Faults(get: set<Key>, create: set<Key>, patch: set<Key>, delete: set<Key>, list: set<Kind>)

  // What one reconcile makes its calls with: its request, the instance it is for, and the calls
  // that fail.
  datatype Context = Context(req: Request, inst: Instance, faults: Faults)

  /* ----- Reading and writing metadata ----- */

  const META := "metadata"

  const LABELS := "labels"

  const OWNER_REFERENCES := "ownerReferences"

  const RETAIN := "helx.renci.org/retain"

  const ID := "helx.renci.org/id"

  function Field(j: Option<Json>, name: string): Option<Json> {
    if j.Some? && j.value.Obj? && name in j.value.fields then Some(j.value.fields[name]) else None
  }

  function Meta(doc: Json, name: string): Option<Json> {
    Field(Field(Some(doc), META), name)
  }

  function Label(doc: Json, name: string): Option<Json> {
    Field(Meta(doc, LABELS), name)
  }

  predicate Retained(doc: Json) {
    Label(doc, RETAIN) == Some(Str("true"))
  }

  predicate LabelledFor(doc: Json, inst: Instance) {
    Label(doc, ID) == Some(Str(inst.uuid))
  }

  function OwnerReferences(doc: Json): Option<Json> {
    Meta(doc, OWNER_REFERENCES)
  }

  function UidOf(ref: Json): Option<string> {
    match Field(Some(ref), "uid")
    case Some(Str(uid)) => Some(uid)
    case _ => None
  }

  predicate IsController(ref: Json) {
    Field(Some(ref), "controller") == Some(Bool(true))
  }

  function References(doc: Json): seq<Json> {
    match OwnerReferences(doc)
    case Some(Arr(items)) => items
    case _ => []
  }

  function Uids(refs: seq<Json>): set<string> {
    set ref | ref in refs && UidOf(ref).Some? :: UidOf(ref).value
  }

  function Owners(doc: Json): set<string> {
    Uids(References(doc))
  }

  // A decoded document: it has metadata, and its labels and owner references, if any, are an
  // object and a list.
  predicate Manifest(doc: Json) {
    && Field(Some(doc), META).Some? && Field(Some(doc), META).value.Obj?
    && (Meta(doc, LABELS).Some? ==> Meta(doc, LABELS).value.Obj?)
    && (OwnerReferences(doc).Some? ==> OwnerReferences(doc).value.Arr?)
  }

  // What a text decodes to, if it does.
  type Target = t: Option<Json> | t.Some? ==> Manifest(t.value) witness None

  function SetMeta(doc: Json, name: string, value: Json): Json
    requires Field(Some(doc), META).Some? && Field(Some(doc), META).value.Obj?
  {
    Obj(doc.fields[META := Obj(doc.fields[META].fields[name := value])])
  }

  function MetaOr(doc: Json, name: string, default: string): string {
    match Meta(doc, name)
    case Some(Str(s)) => if s == "" then default else s
    case _ => default
  }

  function KeyOf(kind: Kind, doc: Json, req: Request): Key {
    Key(kind, MetaOr(doc, "namespace", req.namespace), MetaOr(doc, "name", req.name))
  }

  // The target with its namespace and name filled in from the request where they are missing.
  function Named(doc: Json, key: Key): Json
    requires Manifest(doc)
  {
    SetMeta(SetMeta(doc, "namespace", Str(key.namespace)), "name", Str(key.name))
  }

  function ControllerReference(uid: string): Json {
    Obj(map["uid" := Str(uid), "controller" := Bool(true)])
  }

  // The reference to an owner replaces the one it has already, or comes last.
  function Upsert(refs: seq<Json>, uid: string): seq<Json> {
    if refs == [] then [ControllerReference(uid)]
    else if UidOf(refs[0]) == Some(uid) then [ControllerReference(uid)] + refs[1..]
    else [refs[0]] + Upsert(refs[1..], uid)
  }

  // An instance can be made the controller of an object of its own namespace that has no other
  // controller.
  predicate MayOwn(doc: Json, namespace: string, inst: Instance) {
    && namespace == inst.namespace
    && forall ref :: ref in References(doc) && IsController(ref) ==> UidOf(ref) == Some(inst.uid)
  }

  function OwnedBy(doc: Json, uid: string): Json
    requires Manifest(doc)
  {
    SetMeta(doc, OWNER_REFERENCES, Arr(Upsert(References(doc), uid)))
  }

  lemma ControllerUid(uid: string)
    ensures UidOf(ControllerReference(uid)) == Some(uid) && IsController(ControllerReference(uid))
  {
    assert "uid"[0] != "controller"[0];
  }

  lemma UidsOfCons(ref: Json, refs: seq<Json>)
    ensures Uids([ref] + refs) == (if UidOf(ref).Some? then {UidOf(ref).value} else {}) + Uids(refs)
  {
    assert forall r :: r in [ref] + refs <==> r == ref || r in refs;
  }

  lemma {:induction false} UpsertAddsOwner(refs: seq<Json>, uid: string)
    ensures Uids(Upsert(refs, uid)) == Uids(refs) + {uid}
  {
    ControllerUid(uid);
    if refs != [] {
      UpsertAddsOwner(refs[1..], uid);
      assert refs == [refs[0]] + refs[1..];
      UidsOfCons(refs[0], refs[1..]);
      UidsOfCons(ControllerReference(uid), refs[1..]);
      UidsOfCons(refs[0], Upsert(refs[1..], uid));
    }
  }

  lemma OwnedByAddsOwner(doc: Json, uid: string)
    requires Manifest(doc)
    ensures Owners(OwnedBy(doc, uid)) == Owners(doc) + {uid}
  {
    UpsertAddsOwner(References(doc), uid);
  }

  lemma NamedIsManifest(doc: Json, key: Key)
    requires Manifest(doc)
    ensures Manifest(Named(doc, key))
    ensures Label(Named(doc, key), RETAIN) == Label(doc, RETAIN) && Label(Named(doc, key), ID) == Label(doc, ID)
    ensures OwnerReferences(Named(doc, key)) == OwnerReferences(doc)
  {
    assert LABELS[0] != "namespace"[0] && LABELS[0] != "name"[0];
    assert OWNER_REFERENCES[0] != "namespace"[0] && OWNER_REFERENCES[0] != "name"[0];
  }

  /* ----- Create or patch ----- */

  // The document a missing object is created with; a retained one gets no further owner, any
  // other one the instance, if it may own it.
  function Created(doc: Json, key: Key, inst: Instance): Option<Json>
    requires Manifest(doc)
  {
    if Retained(doc) then Some(doc)
    else if MayOwn(doc, key.namespace, inst) then Some(OwnedBy(doc, inst.uid))
    else None
  }

  // The objects after a create-or-patch, and whether it succeeded. An existing claim is
  // overlaid with the target, any other existing object replaced by it.
  function Put(objects: Objects, kind: Kind, target: Target, c: Context): (Objects, bool)
  {
    if target.None? then (objects, false)
    else
      var key := KeyOf(kind, target.value, c.req);
      NamedIsManifest(target.value, key);
      var doc := Named(target.value, key);
      if key in c.faults.get then (objects, false)
      else if key in objects then
        if key in c.faults.patch then (objects, false)
        else (objects[key := Outcome(objects[key], doc, kind != VolumeClaim)], true)
      else
        var created := Created(doc, key, c.inst);
        if created.None? || key in c.faults.create then (objects, false)
        else (objects[key := created.value], true)
  }

  // The guards a create-or-patch has to pass.
  predicate Succeeds(objects: Objects, kind: Kind, target: Target, c: Context) {
    && target.Some?
    && var key := KeyOf(kind, target.value, c.req);
       && key !in c.faults.get
       && (key in objects ==> key !in c.faults.patch)
       && (key !in objects ==>
             && key !in c.faults.create
             && (Retained(target.value) || MayOwn(target.value, key.namespace, c.inst)))
  }

  // It succeeds exactly if they are all passed, and changes nothing if one is not.
  lemma PutSucceedsIff(objects: Objects, kind: Kind, target: Target, c: Context)
    ensures Put(objects, kind, target, c).1 <==> Succeeds(objects, kind, target, c)
    ensures !Succeeds(objects, kind, target, c) ==> Put(objects, kind, target, c).0 == objects
  {
    if target.Some? {
      NamedIsManifest(target.value, KeyOf(kind, target.value, c.req));
    }
  }

  /* ----- What a create-or-patch leaves, in terms of the target ----- */

  function TextOf(j: Option<Json>): string {
    match j
    case Some(Str(s)) => s
    case _ => ""
  }

  function InMetadata(doc: Json, name: string): Option<Json> {
    Field(Field(Some(doc), "metadata"), name)
  }

  function GivenOr(doc: Json, name: string, default: string): string {
    if TextOf(InMetadata(doc, name)) != "" then TextOf(InMetadata(doc, name)) else default
  }

  // The name and namespace the target gives, and where it gives none those of the request.
  function Destination(kind: Kind, doc: Json, req: Request): Key {
    Key(kind, GivenOr(doc, "namespace", req.namespace), GivenOr(doc, "name", req.name))
  }

  // The document is the target, field by field, with the namespace and name of `k` written in;
  // of its owner references nothing is said.
  ghost predicate Carries(doc: Json, target: Json, k: Key) {
    && doc.Obj?
    && (forall f :: f != "metadata" ==> Field(Some(doc), f) == Field(Some(target), f))
    && (forall f :: f !in {"namespace", "name", "ownerReferences"} ==> InMetadata(doc, f) == InMetadata(target, f))
    && InMetadata(doc, "namespace") == Some(Str(k.namespace))
    && InMetadata(doc, "name") == Some(Str(k.name))
  }

  lemma {:induction false} UpsertHasController(refs: seq<Json>, uid: string)
    ensures exists ref :: ref in Upsert(refs, uid) && IsController(ref) && UidOf(ref) == Some(uid)
  {
    ControllerUid(uid);
    if refs != [] && UidOf(refs[0]) != Some(uid) {
      UpsertHasController(refs[1..], uid);
      var ref :| ref in Upsert(refs[1..], uid) && IsController(ref) && UidOf(ref) == Some(uid);
      assert ref in Upsert(refs, uid);
    } else {
      assert ControllerReference(uid) in Upsert(refs, uid);
    }
  }

  // Nobody but the instance controls the target.
  ghost predicate NoOtherController(target: Json, inst: Instance) {
    forall ref :: ref in References(target) && Field(Some(ref), "controller") == Some(Bool(true)) ==>
      Field(Some(ref), "uid") == Some(Str(inst.uid))
  }

  ghost predicate HasRetainLabel(doc: Json) {
    Field(InMetadata(doc, "labels"), "helx.renci.org/retain") == Some(Str("true"))
  }

  // When it succeeds: the text decodes and the read does not fail; and an object that is there
  // can be patched, and one that is not can be created, being retained or in the namespace of
  // the instance and not under another controller.
  lemma PutSucceedsWhen(objects: Objects, kind: Kind, target: Target, c: Context)
    ensures Put(objects, kind, target, c).1 <==>
              && target.Some?
              && var k := Destination(kind, target.value, c.req);
                 && k !in c.faults.get
                 && if k in objects then k !in c.faults.patch
                    else
                      && k !in c.faults.create
                      && (HasRetainLabel(target.value)
                          || (k.namespace == c.inst.namespace && NoOtherController(target.value, c.inst)))
  {
    PutSucceedsIff(objects, kind, target, c);
  }

  // The document carries the target; a retained one has the target's owners, any other one the
  // instance besides, as its controller.
  ghost predicate IsCreated(doc: Json, target: Json, k: Key, inst: Instance) {
    && Carries(doc, target, k)
    && (HasRetainLabel(target) ==> OwnerReferences(doc) == OwnerReferences(target))
    && (!HasRetainLabel(target) ==>
          && Owners(doc) == Owners(target) + {inst.uid}
          && exists ref :: ref in References(doc) && IsController(ref) && UidOf(ref) == Some(inst.uid))
  }

  lemma CreatedIs(target: Json, k: Key, inst: Instance)
    requires Manifest(target) && Manifest(Named(target, k)) && Created(Named(target, k), k, inst).Some?
    ensures IsCreated(Created(Named(target, k), k, inst).value, target, k, inst)
  {
    var doc := Named(target, k);
    NamedIsManifest(target, k);
    if !Retained(doc) {
      OwnedByAddsOwner(doc, inst.uid);
      UpsertHasController(References(doc), inst.uid);
      assert References(OwnedBy(doc, inst.uid)) == Upsert(References(doc), inst.uid);
    }
  }

  // A created object is the target under its destination, field by field, with its owners.
  lemma CreatedCarriesTarget(objects: Objects, kind: Kind, target: Target, c: Context)
    requires Put(objects, kind, target, c).1 && Destination(kind, target.value, c.req) !in objects
    ensures var k := Destination(kind, target.value, c.req);
            && Put(objects, kind, target, c).0.Keys == objects.Keys + {k}
            && IsCreated(Put(objects, kind, target, c).0[k], target.value, k, c.inst)
  {
    var k := Destination(kind, target.value, c.req);
    NamedIsManifest(target.value, k);
    CreatedIs(target.value, k, c.inst);
  }

  // A patched Deployment or Service is the target, field by field, owners included; a patched
  // claim is overlaid with it. No other object changes.
  lemma PatchedCarriesTarget(objects: Objects, kind: Kind, target: Target, c: Context)
    requires Put(objects, kind, target, c).1 && Destination(kind, target.value, c.req) in objects
    ensures var k := Destination(kind, target.value, c.req);
            Put(objects, kind, target, c).0.Keys == objects.Keys
    ensures var k := Destination(kind, target.value, c.req);
            exists doc :: Carries(doc, target.value, k) && OwnerReferences(doc) == OwnerReferences(target.value)
              && Put(objects, kind, target, c).0[k] == if kind == VolumeClaim then Overlay(objects[k], doc) else doc
  {
    var k := Destination(kind, target.value, c.req);
    NamedIsManifest(target.value, k);
    assert Carries(Named(target.value, k), target.value, k);
  }

  lemma PutTouchesOne(objects: Objects, kind: Kind, target: Target, c: Context, x: Key)
    requires target.Some? ==> x != Destination(kind, target.value, c.req)
    ensures x in Put(objects, kind, target, c).0 <==> x in objects
    ensures x in objects ==> Put(objects, kind, target, c).0[x] == objects[x]
  {
  }

  // What the controller's cascade is to remove for an instance.
  function Doomed(objects: Objects, kinds: set<Kind>, inst: Instance): set<Key> {
    set k | k in objects && k.kind in kinds && k.namespace == inst.namespace
            && LabelledFor(objects[k], inst) && !Retained(objects[k])
  }

  const ALL_KINDS := {Deployment, VolumeClaim, Kind.Service}

  // An object goes in an instance's cascade exactly if it is in its namespace, carries its UUID
  // in the id label, and is not retained.
  lemma DoomedIff(objects: Objects, inst: Instance, k: Key)
    ensures k in Doomed(objects, ALL_KINDS, inst) <==>
              && k in objects && k.namespace == inst.namespace
              && Field(InMetadata(objects[k], "labels"), "helx.renci.org/id") == Some(Str(inst.uuid))
              && !HasRetainLabel(objects[k])
  {
    assert k.kind in ALL_KINDS by {
      match k.kind
      case Deployment =>
      case VolumeClaim =>
      case Service =>
    }
  }

  // An object created with an instance's UUID in its id label, and without the retain label, goes
  // in that instance's cascade, and in that of no instance with another UUID.
  lemma CreatedGoesWithItsInstance(objects: Objects, kind: Kind, target: Target, c: Context, other: Instance)
    requires Put(objects, kind, target, c).1 && Destination(kind, target.value, c.req) !in objects
    requires Field(InMetadata(target.value, "labels"), "helx.renci.org/id") == Some(Str(c.inst.uuid))
    requires !HasRetainLabel(target.value) && other.uuid != c.inst.uuid
    ensures var k, after := Destination(kind, target.value, c.req), Put(objects, kind, target, c).0;
            k in Doomed(after, ALL_KINDS, c.inst) && k !in Doomed(after, ALL_KINDS, other)
  {
    var k, after := Destination(kind, target.value, c.req), Put(objects, kind, target, c).0;
    PutSucceedsWhen(objects, kind, target, c);
    CreatedCarriesTarget(objects, kind, target, c);
    assert InMetadata(after[k], "labels") == InMetadata(target.value, "labels");
    DoomedIff(after, c.inst, k);
    DoomedIff(after, other, k);
  }

  class ApiServer {
    var objects: Objects

    constructor ()
      ensures objects == map[]
    {
      objects := map[];
    }

    method CreateOrUpdateResource(kind: Kind, target: Target, c: Context, ord: KeyOrder)
      returns (ok: bool)
        requires Orders(ord)
      modifies this
      ensures (objects, ok) == Put(old(objects), kind, target, c)
    {
      if target.None? {
        return false;
      }
      var key := KeyOf(kind, target.value, c.req);
      NamedIsManifest(target.value, key);
      var doc := Named(target.value, key);
      if key in c.faults.get {
        return false;
      }
      if key !in objects {
        if !Retained(doc) {
          if !MayOwn(doc, key.namespace, c.inst) {
            return false;
          }
          doc := OwnedBy(doc, c.inst.uid);
        }
        if key in c.faults.create {
          return false;
        }
        objects := objects[key := doc];
      } else {
        var existing := objects[key];
        var patch := Diff(existing, doc, [], ord);
        var filtered := [];
        for i := 0 to |patch|
          invariant objects == old(objects)
          invariant filtered == Kept(patch[..i], kind != VolumeClaim)
        {
          assert patch[..i + 1] == patch[..i] + [patch[i]];
          KeptAppends(patch[..i], [patch[i]], kind != VolumeClaim);
          if kind != VolumeClaim || !patch[i].Remove? {
            filtered := filtered + [patch[i]];
          }
        }
        assert patch[..|patch|] == patch;
        if key in c.faults.patch {
          return false;
        }
        PatchGivesOutcome(existing, doc, [], ord, kind != VolumeClaim);
        objects := objects[key := Apply(filtered, existing).value];
      }
      ok := true;
    }

    // Deletes, one by one, the listed objects of a kind that are not to be retained.
    method DeleteKind(kind: Kind, inst: Instance, faults: Faults) returns (ok: bool, ghost removed: set<Key>)
      modifies this
      ensures removed <= Doomed(old(objects), {kind}, inst)
      ensures objects == old(objects) - removed
      ensures ok ==> removed == Doomed(old(objects), {kind}, inst)
      ensures ok <==> kind !in faults.list && Doomed(old(objects), {kind}, inst) !! faults.delete
    {
      removed := {};
      if kind in faults.list {
        return false, removed;
      }
      var listed := set k | k in objects && k.kind == kind && k.namespace == inst.namespace
          && LabelledFor(objects[k], inst);
      ghost var doomed := Doomed(objects, {kind}, inst);
      while listed != {}
        invariant listed <= objects.Keys && objects == old(objects) - removed
        invariant forall k :: k in listed ==> k in objects && objects[k] == old(objects)[k]
        invariant doomed == removed + set k | k in listed && !Retained(old(objects)[k])
        invariant removed !! listed && removed !! faults.delete
        decreases listed
      {
        var k :| k in listed;
        listed := listed - {k};
        if !Retained(objects[k]) {
          if k in faults.delete {
            return false, removed;
          }
          objects := objects - {k};
          removed := removed + {k};
        }
      }
      ok := true;
    }

    method DeleteDerivatives(inst: Instance, faults: Faults) returns (ok: bool, ghost removed: set<Key>)
      modifies this
      ensures removed <= Doomed(old(objects), ALL_KINDS, inst)
      ensures objects == old(objects) - removed
      ensures ok ==> removed == Doomed(old(objects), ALL_KINDS, inst)
      ensures ok <==> ALL_KINDS !! faults.list && Doomed(old(objects), ALL_KINDS, inst) !! faults.delete
    {
      ghost var more: set<Key>;
      ok, removed := DeleteKind(Deployment, inst, faults);
      if !ok { return; }
      ok, more := DeleteKind(VolumeClaim, inst, faults);
      removed := removed + more;
      if !ok { return; }
      ok, more := DeleteKind(Kind.Service, inst, faults);
      removed := removed + more;
    }
  }
}
