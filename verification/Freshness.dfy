// The workloads last applied are those the tables now call for, but for the instances whose
// last derivation failed or whose workloads were removed: an invariant of every run of whole
// reconciles within one lifetime of the controller.
module Freshness {
  import opened Resources
  import opened Graph
  import opened GraphIndex
  import opened Reconcile
  import Pipeline

  // The artifacts last applied for the instance were generated from exactly what the tables
  // hold now.
  ghost predicate UpToDate(w: World, k: string)
    requires k in w.t.insts && Ready(w.t, w.t.insts[k])
  {
    k in w.applied && w.applied[k] == Current(w.t, w.t.insts[k])
  }

  // So it is for every stored instance that is ready and not behind.
  ghost predicate Fresh(w: World) {
    forall k :: k in w.t.insts && Ready(w.t, w.t.insts[k]) && k !in w.behind ==> UpToDate(w, k)
  }

  ghost predicate Good(w: World) {
    Keyed(w.t) && Indexed(w.t) && Fresh(w)
  }

  // `done`: which of the derivations or removals of the reconcile succeed.
  datatype Event =
    | App(name: string, app: Fetched<HelxApp>, done: set<string>)
    | User(name: string, user: Fetched<HelxUser>, done: set<string>)
    | Inst(name: string, inst: Fetched<HelxInst>, newUuid: string, done: set<string>)

  ghost function Next(w: World, e: Event): World {
    match e
    case App(name, app, done) => AppReconciled(w, name, app, done)
    case User(name, user, done) => UserReconciled(w, name, user, done)
    case Inst(name, inst, newUuid, done) => InstReconciled(w, name, inst, newUuid, done)
  }

  // A resource found at an already observed generation is the one the tables hold, and no
  // instance is deleted whose deletion takes another out of the index.
  ghost predicate Admissible(w: World, e: Event) {
    match e
    case App(_, app, _) =>
      app.Found? && app.obj.observedGeneration >= app.obj.generation ==>
        var held := ObjOf(w.t.apps, AppName(app.obj)); held.Some? && AppView(held.value) == AppView(app.obj)
    case User(_, user, _) =>
      user.Found? && user.obj.observedGeneration >= user.obj.generation ==>
        var held := ObjOf(w.t.users, UserName(user.obj)); held.Some? && UserView(held.value) == UserView(user.obj)
    case Inst(name, inst, _, _) =>
      && (inst.Missing? ==> !Evicts(w.t, name))
      && (inst.Found? && inst.obj.observedGeneration >= inst.obj.generation ==>
            InstName(inst.obj) in w.t.insts && InstView(w.t.insts[InstName(inst.obj)]) == InstView(inst.obj))
  }

  // What generation reads of an instance's partners.
  ghost predicate SamePartners(t: Tables, u: Tables, inst: HelxInst) {
    && (ObjOf(t.apps, AppKey(inst)).Some? <==> ObjOf(u.apps, AppKey(inst)).Some?)
    && (ObjOf(t.users, UserKey(inst)).Some? <==> ObjOf(u.users, UserKey(inst)).Some?)
    && (ObjOf(t.apps, AppKey(inst)).Some? ==>
        AppView(ObjOf(t.apps, AppKey(inst)).value) == AppView(ObjOf(u.apps, AppKey(inst)).value))
    && (ObjOf(t.users, UserKey(inst)).Some? ==>
        UserView(ObjOf(t.users, UserKey(inst)).value) == UserView(ObjOf(u.users, UserKey(inst)).value))
  }

  // The view of a stored instance and those of its partners are as they were.
  ghost predicate Unchanged(w: World, t: Tables, k: string) {
    k in w.t.insts && k in t.insts && InstView(w.t.insts[k]) == InstView(t.insts[k])
        && SamePartners(w.t, t, w.t.insts[k])
  }

  // After a derivation due for `names`, every stored instance is up to date or behind that is
  // among them or that is unchanged.
  lemma FreshAfter(w: World, t: Tables, names: set<string>, done: set<string>)
    requires Fresh(w)
    requires forall k :: k in t.insts && k !in names ==> Unchanged(w, t, k)
    ensures Fresh(Derive(w.(t := t), names, done))
  {
    var w' := Derive(w.(t := t), names, done);
    forall k | k in t.insts && Ready(t, t.insts[k]) && k !in w'.behind ensures UpToDate(w', k) {
      if k in names {
        assert k in Due(t, names) && k in done;
        assert k in Refreshed(t, Due(t, names) * done);
      } else {
        assert k !in Refreshed(t, Due(t, names) * done);
      }
    }
  }

  lemma AppStep(w: World, app: HelxApp, names: set<string>, done: set<string>)
    requires Good(w)
    requires names == InstSet(w.t.apps, AppName(app))
             || (names == {} && ObjOf(w.t.apps, AppName(app)).Some?
                 && AppView(ObjOf(w.t.apps, AppName(app)).value) == AppView(app))
    ensures Good(Derive(w.(t := PutApp(w.t, app)), names, done))
  {
    var t := PutApp(w.t, app);
    StepKeepsIndex(w.t, AddApp(app));
    forall k | k in t.insts && k !in names ensures Unchanged(w, t, k) {
      assert k in InstSet(w.t.apps, AppKey(t.insts[k]));
    }
    FreshAfter(w, t, names, done);
  }

  lemma UserStep(w: World, user: HelxUser, names: set<string>, done: set<string>)
    requires Good(w)
    requires names == InstSet(w.t.users, UserName(user))
             || (names == {} && ObjOf(w.t.users, UserName(user)).Some?
                 && UserView(ObjOf(w.t.users, UserName(user)).value) == UserView(user))
    ensures Good(Derive(w.(t := PutUser(w.t, user)), names, done))
  {
    var t := PutUser(w.t, user);
    StepKeepsIndex(w.t, AddUser(user));
    forall k | k in t.insts && k !in names ensures Unchanged(w, t, k) {
      assert k in InstSet(w.t.users, UserKey(t.insts[k]));
    }
    FreshAfter(w, t, names, done);
  }

  // Storing and deleting instances leaves the objects as they are.
  ghost predicate SameObjects(t: Tables, u: Tables) {
    && (forall key :: ObjOf(t.apps, key) == ObjOf(u.apps, key))
    && (forall key :: ObjOf(t.users, key) == ObjOf(u.users, key))
  }

  lemma UnchangedInst(w: World, t: Tables, k: string)
    requires SameObjects(w.t, t) && k in t.insts && k in w.t.insts && InstView(w.t.insts[k]) == InstView(t.insts[k])
    ensures Unchanged(w, t, k)
  {
  }

  lemma InstStep(w: World, inst: HelxInst, names: set<string>, done: set<string>)
    requires Good(w)
    requires names == {InstName(inst)}
             || (names == {} && InstName(inst) in w.t.insts && InstView(w.t.insts[InstName(inst)]) == InstView(inst))
    ensures Good(Derive(w.(t := PutInst(w.t, inst)), names, done))
  {
    var t := PutInst(w.t, inst);
    StepKeepsIndex(w.t, AddInst(inst));
    forall k | k in t.insts && k !in names ensures Unchanged(w, t, k) { UnchangedInst(w, t, k); }
    FreshAfter(w, t, names, done);
  }

  lemma DeriveNone(w: World, done: set<string>)
    ensures Derive(w, {}, done) == w
  {
    assert Due(w.t, {}) == {} && {} * done == {};
    OverwriteNone(w);
  }

  lemma DropStep(w: World, names: set<string>, done: set<string>)
    requires Good(w)
    ensures Good(Drop(w, names, done))
  {
    var w' := Drop(w, names, done);
    forall k | k in w.t.insts && Ready(w.t, w.t.insts[k]) && k !in w'.behind ensures UpToDate(w', k) {
      assert k !in Due(w.t, names) && UpToDate(w, k);
    }
  }

  // Fewer instances, each as it was, and the same objects.
  lemma GoodIfFewer(w: World, t: Tables)
    requires Good(w) && Keyed(t) && Indexed(t) && SameObjects(w.t, t)
    requires forall k :: k in t.insts ==> k in w.t.insts && t.insts[k] == w.t.insts[k]
    ensures Good(w.(t := t))
  {
    forall k | k in t.insts ensures Unchanged(w, t, k) { UnchangedInst(w, t, k); }
  }

  lemma DropInstStep(w: World, name: string)
    requires Good(w) && !Evicts(w.t, name)
    ensures Good(w.(t := DropInst(w.t, name)))
  {
    StepKeepsIndex(w.t, DeleteInst(name));
    GoodIfFewer(w, DropInst(w.t, name));
  }

  // Every reconcile, whatever of it fails, and every deletion keeps the invariant.
  lemma FreshStep(w: World, e: Event)
    requires Good(w) && Admissible(w, e)
    ensures Good(Next(w, e))
  {
    match e
    case App(name, app, done) =>
      if app.Missing? { DropStep(w, InstSet(w.t.apps, name), done); }
      if app.Found? {
        var full := app.obj.observedGeneration < app.obj.generation;
        DeriveNone(w.(t := PutApp(w.t, app.obj)), done);
        AppStep(w, app.obj, if full then InstSet(w.t.apps, AppName(app.obj)) else {}, done);
      }
    case User(name, user, done) =>
      if user.Missing? { DropStep(w, InstSet(w.t.users, name), done); }
      if user.Found? {
        var full := user.obj.observedGeneration < user.obj.generation;
        DeriveNone(w.(t := PutUser(w.t, user.obj)), done);
        UserStep(w, user.obj, if full then InstSet(w.t.users, UserName(user.obj)) else {}, done);
      }
    case Inst(name, inst, newUuid, done) =>
      if inst.Missing? { DropInstStep(w, name); }
      if inst.Found? {
        var full := inst.obj.observedGeneration < inst.obj.generation;
        var stored := if full then WithUuid(inst.obj, newUuid) else inst.obj;
        DeriveNone(w.(t := PutInst(w.t, stored)), done);
        InstStep(w, stored, if full then {InstName(inst.obj)} else {}, done);
      }
  }

  ghost predicate IsRun(ws: seq<World>, es: seq<Event>) {
    && |ws| == |es| + 1 && ws[0] == START
    && forall i :: 0 <= i < |es| ==> Admissible(ws[i], es[i]) && ws[i + 1] == Next(ws[i], es[i])
  }

  lemma {:induction false} AlwaysFresh(ws: seq<World>, es: seq<Event>, n: nat)
    requires IsRun(ws, es) && n < |ws|
    ensures Good(ws[n])
  {
    if n > 0 {
      AlwaysFresh(ws, es, n - 1);
      assert Admissible(ws[n - 1], es[n - 1]);
      FreshStep(ws[n - 1], es[n - 1]);
    }
  }

  // Nothing the reconcile has to derive fails, and no application or user is deleted.
  ghost predicate Succeeds(w: World, e: Event) {
    match e
    case App(_, app, done) => !app.Missing? && (app.Found? ==> Due(w.t, InstSet(w.t.apps, AppName(app.obj))) <= done)
    case User(_, user, done) => !user.Missing? && (user.Found? ==>
        Due(w.t, InstSet(w.t.users, UserName(user.obj))) <= done)
    case Inst(_, inst, _, done) => inst.Found? ==> InstName(inst.obj) in done
  }

  lemma {:induction false} NobodyBehind(ws: seq<World>, es: seq<Event>, n: nat)
    requires IsRun(ws, es) && n < |ws|
    requires forall i :: 0 <= i < n ==> Succeeds(ws[i], es[i])
    ensures ws[n].behind == {}
  {
    if n > 0 {
      NobodyBehind(ws, es, n - 1);
      assert Succeeds(ws[n - 1], es[n - 1]) && ws[n] == Next(ws[n - 1], es[n - 1]);
    }
  }

  // As long as nothing fails and no application or user is deleted, every ready instance is up
  // to date.
  lemma AlwaysUpToDate(ws: seq<World>, es: seq<Event>, n: nat)
    requires IsRun(ws, es) && n < |ws|
    requires forall i :: 0 <= i < n ==> Succeeds(ws[i], es[i])
    ensures forall k :: k in ws[n].t.insts && Ready(ws[n].t, ws[n].t.insts[k]) ==> UpToDate(ws[n], k)
  {
    AlwaysFresh(ws, es, n);
    NobodyBehind(ws, es, n);
  }

  /* ----- What one update brings about ----- */

  // An application found at a new generation is in the tables, and its instances that are ready,
  // and whose derivation succeeds, are applied from it; nothing else is applied anew.
  lemma AppUpdateIsApplied(w: World, app: HelxApp, name: string, done: set<string>)
    requires Keyed(w.t) && Indexed(w.t)
    ensures var w' := Next(w, App(name, Found(app), done));
            && ObjOf(w'.t.apps, AppName(app)) == Some(app)
            && w'.t.insts == w.t.insts && w'.t.users == w.t.users
            && (app.observedGeneration < app.generation ==>
                  forall k :: k in w.t.insts && AppKey(w.t.insts[k]) == AppName(app)
                              && Ready(w'.t, w'.t.insts[k]) && k in done ==>
                    && k in w'.applied && w'.applied[k].app == app.(generation := 0, observedGeneration := 0)
                    && w'.applied[k].inst == InstView(w.t.insts[k]))
            && (app.observedGeneration >= app.generation ==> w'.applied == w.applied)
            && (forall k :: k !in InstSet(w.t.apps, AppName(app)) ==>
                  (k in w'.applied <==> k in w.applied) && (k in w.applied ==> w'.applied[k] == w.applied[k]))
  {
    var w' := Next(w, App(name, Found(app), done));
    forall k | k in w.t.insts && AppKey(w.t.insts[k]) == AppName(app) && Ready(w'.t, w'.t.insts[k]) && k in done
      ensures app.observedGeneration < app.generation ==>
                k in w'.applied && w'.applied[k] == Current(w'.t, w'.t.insts[k])
    {
      assert k in Refreshed(w'.t, Due(w'.t, InstSet(w.t.apps, AppName(app))) * done);
    }
  }

  lemma UserUpdateIsApplied(w: World, user: HelxUser, name: string, done: set<string>)
    requires Keyed(w.t) && Indexed(w.t)
    ensures var w' := Next(w, User(name, Found(user), done));
            && ObjOf(w'.t.users, UserName(user)) == Some(user)
            && w'.t.insts == w.t.insts && w'.t.apps == w.t.apps
            && (user.observedGeneration < user.generation ==>
                  forall k :: k in w.t.insts && UserKey(w.t.insts[k]) == UserName(user)
                              && Ready(w'.t, w'.t.insts[k]) && k in done ==>
                    && k in w'.applied && w'.applied[k].user == user.(generation := 0, observedGeneration := 0)
                    && w'.applied[k].inst == InstView(w.t.insts[k]))
            && (user.observedGeneration >= user.generation ==> w'.applied == w.applied)
            && (forall k :: k !in InstSet(w.t.users, UserName(user)) ==>
                  (k in w'.applied <==> k in w.applied) && (k in w.applied ==> w'.applied[k] == w.applied[k]))
  {
    var w' := Next(w, User(name, Found(user), done));
    forall k | k in w.t.insts && UserKey(w.t.insts[k]) == UserName(user) && Ready(w'.t, w'.t.insts[k]) && k in done
      ensures user.observedGeneration < user.generation ==>
                k in w'.applied && w'.applied[k] == Current(w'.t, w'.t.insts[k])
    {
      assert k in Refreshed(w'.t, Due(w'.t, InstSet(w.t.users, UserName(user))) * done);
    }
  }

  // An instance that was deleted is gone from the tables; nothing is applied or removed for it.
  lemma InstDeletionRemovesNothing(w: World, name: string, done: set<string>)
    ensures var w' := Next(w, Inst(name, Missing, "", done));
            name !in w'.t.insts && w'.applied == w.applied
  {
    DeletedInstIsGone(w.t, name);
  }

  // A deleted application, and likewise a deleted user, takes with it the workloads of every
  // instance that refers to it, as far as the removals succeed, and of no instance it is not
  // linked to; it stays in the tables itself.
  lemma DeletionRemovesWorkloads(w: World, name: string, done: set<string>)
    requires Indexed(w.t)
    ensures var w' := Next(w, App(name, Missing, done));
            && w'.t == w.t
            && (forall k :: k in w.t.insts && AppKey(w.t.insts[k]) == name && k in done ==> k !in w'.applied)
            && (forall k :: k !in InstSet(w.t.apps, name) || k !in done ==>
                  (k in w'.applied <==> k in w.applied) && (k in w.applied ==> w'.applied[k] == w.applied[k]))
    ensures var w' := Next(w, User(name, Missing, done));
            && w'.t == w.t
            && (forall k :: k in w.t.insts && UserKey(w.t.insts[k]) == name && k in done ==> k !in w'.applied)
            && (forall k :: k !in InstSet(w.t.users, name) || k !in done ==>
                  (k in w'.applied <==> k in w.applied) && (k in w.applied ==> w'.applied[k] == w.applied[k]))
  {
    forall k | k in w.t.insts && AppKey(w.t.insts[k]) == name && k in done
      ensures k in Due(w.t, InstSet(w.t.apps, name)) * done
    {
    }
    forall k | k in w.t.insts && UserKey(w.t.insts[k]) == name && k in done
      ensures k in Due(w.t, InstSet(w.t.users, name)) * done
    {
    }
  }

  /* ----- After a restart ----- */

  ghost predicate Observed(e: Event) {
    match e
    case App(_, app, _) => app.Found? && app.obj.observedGeneration >= app.obj.generation
    case User(_, user, _) => user.Found? && user.obj.observedGeneration >= user.obj.generation
    case Inst(_, inst, _, _) => inst.Found? && inst.obj.observedGeneration >= inst.obj.generation
  }

  // From empty tables, with every resource found observed, in any order and number.
  ghost predicate IsRestart(ws: seq<World>, es: seq<Event>) {
    && |ws| == |es| + 1 && ws[0] == START
    && forall i :: 0 <= i < |es| ==> Observed(es[i]) && ws[i + 1] == Next(ws[i], es[i])
  }

  lemma {:induction false} RefillOnly(ws: seq<World>, es: seq<Event>, n: nat)
    requires IsRestart(ws, es) && n < |ws|
    ensures ws[n].applied == map[] && ws[n].behind == {}
    ensures Keyed(ws[n].t) && Indexed(ws[n].t)
  {
    if n > 0 {
      RefillOnly(ws, es, n - 1);
      var w, e := ws[n - 1], es[n - 1];
      assert Observed(e) && ws[n] == Next(w, e);
      match e
      case App(_, app, _) => StepKeepsIndex(w.t, AddApp(app.obj));
      case User(_, user, _) => StepKeepsIndex(w.t, AddUser(user.obj));
      case Inst(_, inst, _, _) => StepKeepsIndex(w.t, AddInst(inst.obj));
    }
  }

  // The graph is refilled and nothing is derived: as soon as one stored instance is ready, the
  // controller is not up to date, and never notices.
  lemma RestartDerivesNothing(ws: seq<World>, es: seq<Event>, n: nat)
    requires IsRestart(ws, es) && n < |ws|
    ensures ws[n].applied == map[] && ws[n].behind == {} && Indexed(ws[n].t)
    ensures Fresh(ws[n]) <==> forall k :: k in ws[n].t.insts ==> !Ready(ws[n].t, ws[n].t.insts[k])
  {
    RefillOnly(ws, es, n);
    if k :| k in ws[n].t.insts && Ready(ws[n].t, ws[n].t.insts[k]) {
      assert !UpToDate(ws[n], k);
    }
  }

  lemma ReadyTriple(app: HelxApp, user: HelxUser, inst: HelxInst)
    requires AppKey(inst) == AppName(app) && UserKey(inst) == UserName(user)
    ensures var t := PutInst(PutUser(PutApp(EMPTY, app), user), inst);
            && t.insts == map[InstName(inst) := inst]
            && (Ready(t, inst) <==> Pipeline.SomeContainer(Pipeline.PrepareAll(app.services)))
  {
    var t := PutInst(PutUser(PutApp(EMPTY, app), user), inst);
    assert ObjOf(t.apps, AppKey(inst)) == Some(app) && ObjOf(t.users, UserKey(inst)) == Some(user);
  }

  // In particular with the three resources of one instance.
  lemma RestartedTriple(app: HelxApp, user: HelxUser, inst: HelxInst)
    requires app.observedGeneration >= app.generation && user.observedGeneration >= user.generation
    requires inst.observedGeneration >= inst.generation
    requires AppKey(inst) == AppName(app) && UserKey(inst) == UserName(user)
    ensures exists ws: seq<World>, es: seq<Event> ::
              && IsRestart(ws, es) && |es| == 3
              && ws[3].t.insts == map[InstName(inst) := inst]
              && (Fresh(ws[3]) <==> !Pipeline.SomeContainer(Pipeline.PrepareAll(app.services)))
  {
    var e1, e2, e3 := App(AppName(app), Found(app), {}), User(UserName(user), Found(user), {}),
        Inst(InstName(inst), Found(inst), "", {});
    var w1 := Next(START, e1);
    var w2 := Next(w1, e2);
    var w3 := Next(w2, e3);
    var ws, es := [START, w1, w2, w3], [e1, e2, e3];
    assert IsRestart(ws, es);
    RestartDerivesNothing(ws, es, 3);
    ReadyTriple(app, user, inst);
    assert ws[3].t == PutInst(PutUser(PutApp(EMPTY, app), user), inst);
  }

  /* ----- Where freshness ends ----- */

  // An application updated so that no service yields a container is not applied: its
  // instances keep running what was applied before.
  lemma NoContainerKeepsTheOld(w: World, app: HelxApp, k: string, done: set<string>)
    requires app.observedGeneration < app.generation
    requires !Pipeline.SomeContainer(Pipeline.PrepareAll(app.services))
    requires k in w.t.insts && AppKey(w.t.insts[k]) == AppName(app) && k in w.applied
    ensures var w' := Next(w, App(AppName(app), Found(app), done));
            k in w'.applied && w'.applied[k] == w.applied[k]
  {
    var t := PutApp(w.t, app);
    assert ObjOf(t.apps, AppName(app)) == Some(app);
    assert k !in Refreshed(t, Due(t, InstSet(w.t.apps, AppName(app))) * done);
  }

  // A deleted application still counts as present, so an update of the user brings its
  // instances back.
  lemma DeletedAppIsDerivedAgain(w: World, app: HelxApp, user: HelxUser, k: string)
    requires Keyed(w.t) && Indexed(w.t) && user.observedGeneration < user.generation
    requires k in w.t.insts && Ready(w.t, w.t.insts[k])
    requires AppKey(w.t.insts[k]) == AppName(app) && UserKey(w.t.insts[k]) == UserName(user)
    ensures var gone := Next(w, App(AppName(app), Missing, {k}));
            && k !in gone.applied
            && k in Next(gone, User(UserName(user), Found(user), {k})).applied
  {
    var gone := Next(w, App(AppName(app), Missing, {k}));
    assert k in InstSet(w.t.apps, AppName(app)) && k in Due(w.t, InstSet(w.t.apps, AppName(app))) * {k};
    var t := PutUser(w.t, user);
    assert ObjOf(t.users, UserName(user)) == Some(user) && ObjOf(t.apps, AppName(app)) == ObjOf(w.t.apps, AppName(app));
    assert Ready(t, t.insts[k]);
    assert k in Refreshed(t, Due(t, InstSet(w.t.users, UserName(user))) * {k});
  }

  // Deleting an application removes workloads of instances that run another one exactly if
  // one of them was pointed away from it: it is in the set, and not in the scan.
  lemma DeletionIsExactIff(w: World, name: string)
    requires Keyed(w.t) && Indexed(w.t)
    ensures (forall k, done :: k in w.t.insts && AppKey(w.t.insts[k]) != name && k in w.applied ==>
                k in Next(w, App(name, Missing, done)).applied)
            <==> (forall k :: StrayApp(w.t, name, k) ==> k !in w.applied)
  {
    if k :| StrayApp(w.t, name, k) && k in w.applied {
      assert k in Due(w.t, InstSet(w.t.apps, name)) * {k};
      assert k !in Next(w, App(name, Missing, {k})).applied;
    }
  }

  // An instance was derived, pointed at another application and derived again; the first
  // application is deleted, and the workload of the second is removed, though the instance is
  // as ready as before.
  lemma RetargetedInstanceIsRemoved(w: World, before: HelxInst, after: HelxInst, name: string)
    requires InstName(before) == InstName(after) == name && AppKey(before) != AppKey(after)
    requires after.observedGeneration < after.generation && after.uuid != ""
    ensures var t := PutInst(w.t, before);
            var w1 := Next(w.(t := t), Inst(name, Found(after), "", {name}));
            var w2 := Next(w1, App(AppKey(before), Missing, {name}));
            && (Ready(w1.t, after) ==> UpToDate(w1, name))
            && name in w2.t.insts && w2.t.insts[name] == after && (Ready(w2.t, after) <==> Ready(w1.t, after))
            && name !in w2.applied
  {
    var t := PutInst(w.t, before);
    var w1 := Next(w.(t := t), Inst(name, Found(after), "", {name}));
    assert WithUuid(after, "") == after && w1.t == PutInst(t, after);
    assert name in Due(w1.t, {name}) * {name};
    if Ready(w1.t, after) { assert name in Refreshed(w1.t, Due(w1.t, {name}) * {name}); }
    RetargetLeavesStray(w.t, before, after);
    assert name in Due(w1.t, InstSet(w1.t.apps, AppKey(before))) * {name};
  }
}
