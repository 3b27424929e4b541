// The three reconcilers, each run to its end before the next: how they keep the graph and the
// applied workloads up with the resources.
module Reconcile {
  import opened Resources
  import opened Graph
  import opened GraphIndex
  import Pipeline

  // A read of a resource: it is gone, it could not be read, or here it is.
  datatype Fetched<+T> = Missing | Unreachable | Found(obj: T)

  // `applied`: for each instance, what the artifacts last applied for it were generated from.
  // `behind`: the instances whose last due derivation did not succeed, or whose workloads a
  // cascade has removed since; for these `applied` does not tell.
  datatype World = World(t: Tables, applied: map<string, Inputs>, behind: set<string>)

  const START := World(EMPTY, map[], {})

  // Both partners are there, and the application gives at least one container.
  ghost predicate Ready(t: Tables, inst: HelxInst) {
    Complete(t, inst) && Pipeline.SomeContainer(Pipeline.PrepareAll(ObjOf(t.apps, AppKey(inst)).value.services))
  }

  // The stored instances among `names`, and those of them that are ready.
  ghost function Due(t: Tables, names: set<string>): set<string> {
    set k | k in names && k in t.insts
  }

  ghost function Refreshed(t: Tables, names: set<string>): set<string> {
    set k | k in Due(t, names) && Ready(t, t.insts[k])
  }

  ghost function NewInputs(t: Tables, ks: set<string>): map<string, Inputs>
    requires forall k :: k in ks ==> k in t.insts && Complete(t, t.insts[k])
  {
    map k | k in ks :: Current(t, t.insts[k])
  }

  // What is applied after the stored instances among `names` have been derived.
  ghost function Overwrite(w: World, names: set<string>): map<string, Inputs> {
    w.applied + NewInputs(w.t, Refreshed(w.t, names))
  }

  // The world after derivations due for `names`, of which those of `done` succeeded.
  ghost function Derive(w: World, names: set<string>, done: set<string>): World {
    var due := Due(w.t, names);
    World(w.t, Overwrite(w, due * done), w.behind - (due * done) + (due - done))
  }

  // The world after removals due for `names`, of which those of `done` succeeded.
  ghost function Drop(w: World, names: set<string>, done: set<string>): World {
    var due := Due(w.t, names);
    World(w.t, w.applied - (due * done), w.behind + due)
  }

  ghost function AppReconciled(w: World, name: string, fetched: Fetched<HelxApp>, done: set<string>): World {
    match fetched
    case Missing => Drop(w, InstSet(w.t.apps, name), done)
    case Unreachable => w
    case Found(app) =>
      var w' := w.(t := PutApp(w.t, app));
      if app.observedGeneration >= app.generation then w' else Derive(w', InstSet(w.t.apps, AppName(app)), done)
  }

  ghost function UserReconciled(w: World, name: string, fetched: Fetched<HelxUser>, done: set<string>): World {
    match fetched
    case Missing => Drop(w, InstSet(w.t.users, name), done)
    case Unreachable => w
    case Found(user) =>
      var w' := w.(t := PutUser(w.t, user));
      if user.observedGeneration >= user.generation then w' else Derive(w', InstSet(w.t.users, UserName(user)), done)
  }

  function WithUuid(inst: HelxInst, newUuid: string): HelxInst {
    if inst.uuid == "" then inst.(uuid := newUuid) else inst
  }

  // The status an instance's reconcile writes when it ends, if it took the full path.
  function StatusOf(inst: HelxInst, newUuid: string): Option<HelxInst> {
    if inst.observedGeneration >= inst.generation then None
    else Some(WithUuid(inst, newUuid).(observedGeneration := inst.generation))
  }

  ghost function InstReconciled(w: World, name: string, fetched: Fetched<HelxInst>, newUuid: string,
                                done: set<string>): World {
    match fetched
    case Missing => w.(t := DropInst(w.t, name))
    case Unreachable => w
    case Found(inst) =>
      if inst.observedGeneration >= inst.generation then w.(t := PutInst(w.t, inst))
      else Derive(w.(t := PutInst(w.t, WithUuid(inst, newUuid))), {InstName(inst)}, done)
  }

  // A derivation fails only for an instance that is ready, when one of the calls it makes does.
  ghost predicate Fails(t: Tables, k: string, failing: set<string>) {
    k in failing && k in t.insts && Ready(t, t.insts[k])
  }

  ghost function DeriveOne(t: Tables, applied: map<string, Inputs>, inst: HelxInst,
                           failing: set<string>): (map<string, Inputs>, bool) {
    if !Ready(t, inst) then (applied, true)
    else if InstName(inst) in failing then (applied, false)
    else (applied[InstName(inst) := Current(t, inst)], true)
  }

  lemma FailsWhen(t: Tables, k: string, failing: set<string>)
    ensures Fails(t, k, failing) <==>
              && k in failing && k in t.insts
              && ObjOf(t.apps, AppKey(t.insts[k])).Some? && ObjOf(t.users, UserKey(t.insts[k])).Some?
              && Pipeline.SomeContainer(Pipeline.PrepareAll(ObjOf(t.apps, AppKey(t.insts[k])).value.services))
  {
  }

  lemma MergeOneMore<V>(m: map<string, V>, n: map<string, V>, k: string, v: V)
    ensures m + n[k := v] == (m + n)[k := v]
  {
  }

  lemma RefreshedOneMore(t: Tables, done: set<string>, k: string)
    requires k in t.insts
    ensures Refreshed(t, done + {k}) == if Ready(t, t.insts[k]) then Refreshed(t, done) + {k} else Refreshed(t, done)
  {
  }

  lemma OverwriteOneMore(w: World, done: set<string>, inst: HelxInst)
    requires InstName(inst) in w.t.insts && w.t.insts[InstName(inst)] == inst
    ensures Overwrite(w, done + {InstName(inst)})
            == if Ready(w.t, inst) then Overwrite(w, done)[InstName(inst) := Current(w.t, inst)] else Overwrite(w, done)
  {
    var k := InstName(inst);
    RefreshedOneMore(w.t, done, k);
    if Ready(w.t, inst) {
      assert NewInputs(w.t, Refreshed(w.t, done) + {k})
          == NewInputs(w.t, Refreshed(w.t, done))[k := Current(w.t, inst)];
      MergeOneMore(w.applied, NewInputs(w.t, Refreshed(w.t, done)), k, Current(w.t, inst));
    }
  }

  lemma OverwriteNone(w: World)
    ensures Overwrite(w, {}) == w.applied
  {
    assert Refreshed(w.t, {}) == {};
  }

  // The derivation of a single instance, as its own reconcile makes it.
  lemma DeriveJust(w: World, inst: HelxInst, failing: set<string>)
    requires InstName(inst) in w.t.insts && w.t.insts[InstName(inst)] == inst
    ensures var (applied, ok) := DeriveOne(w.t, w.applied, inst, failing);
            var done := if ok then {InstName(inst)} else {};
            && (ok <==> !Fails(w.t, InstName(inst), failing))
            && World(w.t, applied, w.behind - done + ({InstName(inst)} - done)) == Derive(w, {InstName(inst)}, done)
  {
    var (applied, ok) := DeriveOne(w.t, w.applied, inst, failing);
    var done := if ok then {InstName(inst)} else {};
    assert Due(w.t, {InstName(inst)}) == {InstName(inst)} && {InstName(inst)} * done == done;
    OverwriteNone(w);
    assert {} + {InstName(inst)} == {InstName(inst)};
    OverwriteOneMore(w, {}, inst);
  }

  ghost function Names(list: seq<HelxInst>): set<string> {
    set v | v in list :: InstName(v)
  }

  lemma NamesSnoc(list: seq<HelxInst>, i: nat)
    requires i < |list|
    ensures Names(list[..i + 1]) == Names(list[..i]) + {InstName(list[i])}
  {
    assert list[..i + 1] == list[..i] + [list[i]];
  }

  // The names on a listing are the stored ones among those listed.
  lemma ListedAreDue(t: Tables, list: seq<HelxInst>, names: set<string>)
    requires Keyed(t) && IsListing(list, names, t.insts)
    ensures Names(list) == Due(t, names)
    ensures forall v :: v in list ==> InstName(v) in t.insts && t.insts[InstName(v)] == v
  {
    ListingIsExact(list, names, t.insts);
    assert forall v :: v in list <==> v in multiset(list);
    forall k | k in Due(t, names) ensures exists v :: v in list && InstName(v) == k {
      assert t.insts[k] in multiset(list);
    }
  }

  lemma DoneAreDue(t: Tables, list: seq<HelxInst>, n: nat, names: set<string>, failing: set<string>)
    requires Names(list) == Due(t, names) && n <= |list|
    requires forall i :: 0 <= i < n ==> !Fails(t, InstName(list[i]), failing)
    ensures Due(t, names) * Names(list[..n]) == Names(list[..n])
    ensures forall k :: k in Names(list[..n]) ==> !Fails(t, k, failing)
    ensures n == |list| ==> forall k :: k in names ==> !Fails(t, k, failing)
    ensures n < |list| && Fails(t, InstName(list[n]), failing) ==> InstName(list[n]) in names
  {
    forall k | k in Names(list[..n]) ensures k in Names(list) && !Fails(t, k, failing) {
      var i :| 0 <= i < n && InstName(list[i]) == k;
      assert list[i] in list;
    }
    if n == |list| {
      assert list[..n] == list;
    } else {
      assert list[n] in list && InstName(list[n]) in Names(list);
    }
  }

  // The first `n` instances of the list have been derived.
  ghost predicate Partly(w: World, list: seq<HelxInst>, n: nat, failing: set<string>, applied: map<string, Inputs>) {
    && n <= |list|
    && applied == Overwrite(w, Names(list[..n]))
    && forall i :: 0 <= i < n ==> !Fails(w.t, InstName(list[i]), failing)
  }

  lemma PartlyStep(w: World, list: seq<HelxInst>, n: nat, failing: set<string>, applied: map<string, Inputs>)
    requires Partly(w, list, n, failing, applied)
    requires n < |list| && InstName(list[n]) in w.t.insts && w.t.insts[InstName(list[n])] == list[n]
    ensures var (applied', ok) := DeriveOne(w.t, applied, list[n], failing);
            if ok then Partly(w, list, n + 1, failing, applied')
                else applied' == applied && Fails(w.t, InstName(list[n]), failing)
  {
    NamesSnoc(list, n);
    OverwriteOneMore(w, Names(list[..n]), list[n]);
  }

  /* ----- The reconcilers as they run ----- */

  class Controller {
    const graph: ObjectGraph
    var applied: map<string, Inputs>
    ghost var behind: set<string>

    ghost predicate Valid()
      reads this, graph, graph.appTable, graph.userTable
    {
      graph.Valid() && Keyed(graph.Contents())
    }

    ghost function State(): World
      reads this, graph, graph.appTable, graph.userTable
    {
      World(graph.Contents(), applied, behind)
    }

    constructor ()
      ensures Valid() && fresh(graph) && fresh(graph.appTable) && fresh(graph.userTable)
      ensures State() == START
    {
      graph := new ObjectGraph();
      applied, behind := map[], {};
    }

    // Generation and application for one instance; one of the calls it makes fails if the
    // instance is in `failing`.
    method CreateDerivatives(inst: HelxInst, failing: set<string>) returns (ok: bool)
      requires Valid()
      modifies this`applied
      ensures (applied, ok) == DeriveOne(graph.Contents(), old(applied), inst, failing)
    {
      ok := true;
      var app := graph.appTable.GetObj(AppKey(inst));
      var user := graph.userTable.GetObj(UserKey(inst));
      if app.Some? && user.Some? {
        var containers, sources, orders := Pipeline.TransformApp(app.value.services);
        Pipeline.PreparedAreNamed(app.value.services);
        Pipeline.SomeContainerIff(Pipeline.PrepareAll(app.value.services), orders);
        if |containers| >= 1 {
          if InstName(inst) in failing {
            return false;
          }
          applied := applied[InstName(inst) := Inputs(InstView(inst), AppView(app.value), UserView(user.value))];
        }
      }
    }

    // The first derivation that fails ends the loop; `n` of them succeeded.
    method DeriveList(list: seq<HelxInst>, failing: set<string>) returns (ok: bool, ghost n: nat)
      requires Valid() && forall v :: v in list ==>
          InstName(v) in graph.Contents().insts && graph.Contents().insts[InstName(v)] == v
      modifies this`applied
      ensures Partly(old(State()), list, n, failing, applied)
      ensures if ok then n == |list| else n < |list| && Fails(graph.Contents(), InstName(list[n]), failing)
    {
      ghost var w := State();
      n := 0;
      OverwriteNone(w);
      for i := 0 to |list|
        invariant n == i && graph.Contents() == w.t
        invariant Partly(w, list, n, failing, applied)
      {
        assert list[i] in list;
        PartlyStep(w, list, n, failing, applied);
        ok := CreateDerivatives(list[i], failing);
        if !ok {
          return;
        }
        n := n + 1;
      }
      ok := true;
    }

    method DeriveEach(list: seq<HelxInst>, failing: set<string>, ghost names: set<string>)
      returns (ok: bool, ghost done: set<string>)
      requires Valid() && IsListing(list, names, graph.instanceTable)
      modifies this
      ensures State() == Derive(old(State()), names, done)
      ensures forall k :: k in done ==> !Fails(graph.Contents(), k, failing)
      ensures ok ==> done == Due(graph.Contents(), names)
      ensures ok <==> forall k :: k in names ==> !Fails(graph.Contents(), k, failing)
    {
      ghost var w := State();
      ListedAreDue(w.t, list, names);
      ghost var n;
      ok, n := DeriveList(list, failing);
      done := Names(list[..n]);
      behind := behind - done + (Due(w.t, names) - done);
      DoneAreDue(w.t, list, n, names, failing);
      assert ok ==> list[..n] == list;
    }

    // Each removal is tried, whatever becomes of the others.
    method DropEach(list: seq<HelxInst>, failing: set<string>,
                    ghost names: set<string>) returns (ghost done: set<string>)
      requires Valid() && IsListing(list, names, graph.instanceTable)
      modifies this
      ensures State() == Drop(old(State()), names, done)
      ensures done == Due(graph.Contents(), names) - failing
    {
      ghost var w := State();
      ListedAreDue(w.t, list, names);
      done := {};
      for i := 0 to |list|
        invariant graph.Contents() == w.t && behind == w.behind
        invariant done == Names(list[..i]) - failing
        invariant applied == w.applied - done
      {
        if InstName(list[i]) !in failing {
          applied := applied - {InstName(list[i])};
          done := done + {InstName(list[i])};
        }
        NamesSnoc(list, i);
      }
      assert list[..|list|] == list;
      behind := behind + Due(w.t, names);
      assert Due(w.t, names) * done == done;
    }

    // The outcome reported, and the status that is written when the reconcile ends, if it took
    // the full path: whether or not a derivation failed. `done` tells which of the derivations
    // or removals succeeded.
    method ReconcileApp(name: string, fetched: Fetched<HelxApp>, failing: set<string>)
      returns (ok: bool, status: Option<HelxApp>, ghost done: set<string>)
      requires Valid()
      modifies this, graph.appTable
      ensures Valid() && State() == AppReconciled(old(State()), name, fetched, done)
      ensures status == if fetched.Found? && fetched.obj.observedGeneration < fetched.obj.generation
                        then Some(fetched.obj.(observedGeneration := fetched.obj.generation)) else None
      ensures fetched.Missing? ==> ok && done == Due(graph.Contents(), InstSet(old(graph.appTable.m), name)) - failing
      ensures fetched.Unreachable? ==> !ok
      ensures fetched.Found? && status.None? ==> ok
      ensures status.Some? ==>
                var names := InstSet(old(graph.appTable.m), AppName(fetched.obj));
                && (ok <==> forall k :: k in names ==> !Fails(graph.Contents(), k, failing))
                && (ok ==> done == Due(graph.Contents(), names))
                && (forall k :: k in done ==> !Fails(graph.Contents(), k, failing))
    {
      ok, status, done := true, None, {};
      match fetched {
        case Missing =>
          var list := graph.DeleteApp(name);
          done := DropEach(list, failing, InstSet(graph.appTable.m, name));
        case Unreachable =>
          ok := false;
        case Found(app) =>
          ghost var names := InstSet(graph.appTable.m, AppName(app));
          var list := graph.AddApp(app);
          if app.observedGeneration < app.generation {
            status := Some(app.(observedGeneration := app.generation));
            ok, done := DeriveEach(list, failing, names);
          }
      }
    }

    method ReconcileUser(name: string, fetched: Fetched<HelxUser>, failing: set<string>)
      returns (ok: bool, status: Option<HelxUser>, ghost done: set<string>)
      requires Valid()
      modifies this, graph.userTable
      ensures Valid() && State() == UserReconciled(old(State()), name, fetched, done)
      ensures status == if fetched.Found? && fetched.obj.observedGeneration < fetched.obj.generation
                        then Some(fetched.obj.(observedGeneration := fetched.obj.generation)) else None
      ensures fetched.Missing? ==> ok && done == Due(graph.Contents(), InstSet(old(graph.userTable.m), name)) - failing
      ensures fetched.Unreachable? ==> !ok
      ensures fetched.Found? && status.None? ==> ok
      ensures status.Some? ==>
                var names := InstSet(old(graph.userTable.m), UserName(fetched.obj));
                && (ok <==> forall k :: k in names ==> !Fails(graph.Contents(), k, failing))
                && (ok ==> done == Due(graph.Contents(), names))
                && (forall k :: k in done ==> !Fails(graph.Contents(), k, failing))
    {
      ok, status, done := true, None, {};
      match fetched {
        case Missing =>
          var list := graph.DeleteUser(name);
          done := DropEach(list, failing, InstSet(graph.userTable.m, name));
        case Unreachable =>
          ok := false;
        case Found(user) =>
          ghost var names := InstSet(graph.userTable.m, UserName(user));
          var list := graph.AddUser(user);
          if user.observedGeneration < user.generation {
            status := Some(user.(observedGeneration := user.generation));
            ok, done := DeriveEach(list, failing, names);
          }
      }
    }

    method ReconcileInst(name: string, fetched: Fetched<HelxInst>, newUuid: string, failing: set<string>)
      returns (ok: bool, status: Option<HelxInst>, ghost done: set<string>)
      requires Valid()
      modifies this, graph, graph.appTable, graph.userTable
      ensures Valid() && State() == InstReconciled(old(State()), name, fetched, newUuid, done)
      ensures status == if fetched.Found? then StatusOf(fetched.obj, newUuid) else None
      ensures fetched.Found? ==> InstName(fetched.obj) in graph.instanceTable
      ensures fetched.Found? && fetched.obj.observedGeneration >= fetched.obj.generation ==>
                status.None? && graph.instanceTable[InstName(fetched.obj)] == fetched.obj
      ensures fetched.Found? && fetched.obj.observedGeneration < fetched.obj.generation ==>
                var stored := graph.instanceTable[InstName(fetched.obj)];
                && stored.uuid == (if fetched.obj.uuid != "" then fetched.obj.uuid else newUuid)
                && stored == fetched.obj.(uuid := stored.uuid)
                && status == Some(stored.(observedGeneration := fetched.obj.generation))
                && (ok && Ready(graph.Contents(), stored) ==>
                      && InstName(stored) in applied
                      && applied[InstName(stored)].inst == stored.(generation := 0, observedGeneration := 0))
      ensures fetched.Unreachable? ==> !ok
      ensures fetched.Missing? || (fetched.Found? && status.None?) ==> ok
      ensures status.Some? ==>
                && (ok <==> !Fails(graph.Contents(), InstName(fetched.obj), failing))
                && done == if ok then {InstName(fetched.obj)} else {}
    {
      ok, status, done := true, None, {};
      match fetched {
        case Missing =>
          graph.DeleteInst(name);
        case Unreachable =>
          ok := false;
        case Found(inst) =>
          if inst.observedGeneration >= inst.generation {
            graph.AddInst(inst);
          } else {
            var fetchedInst := inst;
            if fetchedInst.uuid == "" {
              fetchedInst := fetchedInst.(uuid := newUuid);
            }
            status := Some(fetchedInst.(observedGeneration := fetchedInst.generation));
            graph.AddInst(fetchedInst);
            ghost var w := State();
            ok := CreateDerivatives(fetchedInst, failing);
            done := if ok then {InstName(fetchedInst)} else {};
            behind := behind - done + ({InstName(fetchedInst)} - done);
            DeriveJust(w, fetchedInst, failing);
          }
      }
    }
  }
}
