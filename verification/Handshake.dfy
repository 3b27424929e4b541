// The three reconcilers running side by side: each writes its part of the graph and then
// reads the rest. One step is one access to a table. However the steps interleave, no
// instance whose application and user are both there is left underived, and none is left
// derived from anything but the latest of all three.
module Handshake {
  import opened Resources
  import opened Graph
  import opened GraphIndex

  // Where a reconcile stands. `full` tells the path that derives from the path that finds its
  // generation already observed and only refills the graph.
  datatype Thread =
    | AppStart(app: HelxApp, full: bool)
    | UserStart(user: HelxUser, full: bool)
    | Collecting(names: set<string>, found: seq<HelxInst>, full: bool)   // reading instanceTable, name by name
    | InstStart(inst: HelxInst, full: bool)
    | LinkApp(inst: HelxInst, full: bool)
    | LinkUser(inst: HelxInst, full: bool)
    | FetchApp(todo: seq<HelxInst>)                                      // looking up the application of todo[0]
    | FetchUser(todo: seq<HelxInst>, seen: Option<HelxApp>)              // ... and then the user, and generates

  // `made`: what generations were made from, each of which saw both objects.
  // `dropped`: what a reconcile that failed was still to make when it gave up.
  // `last`: what the last generation for an instance was made from.
  datatype State = State(t: Tables, threads: map<nat, Thread>, made: set<Inputs>, dropped: set<Inputs>,
                         last: map<string, Inputs>)

  const INIT := State(EMPTY, map[], {}, {}, map[])

  datatype Label =
    | Spawn(tid: nat, thread: Thread)
    | Advance(tid: nat)
    | Read(tid: nat, name: string)
    | Fail(tid: nat)

  function Tid(l: Label): nat {
    l.tid
  }

  predicate IsStart(th: Thread) {
    th.AppStart? || th.UserStart? || th.InstStart?
  }

  predicate Finished(th: Thread) {
    (th.FetchApp? && th.todo == []) || (th.Collecting? && th.names == {} && !th.full)
  }

  // A reconcile that finds its generation observed re-adds what the tables hold.
  predicate MayStart(t: Tables, th: Thread) {
    match th
    case AppStart(app, full) =>
      full || (ObjOf(t.apps, AppName(app)).Some? && AppView(ObjOf(t.apps, AppName(app)).value) == AppView(app))
    case UserStart(user, full) =>
      full || (ObjOf(t.users, UserName(user)).Some? && UserView(ObjOf(t.users, UserName(user)).value) == UserView(user))
    case InstStart(inst, full) =>
      full || (InstName(inst) in t.insts && InstView(t.insts[InstName(inst)]) == InstView(inst))
    case _ => true
  }

  predicate Enabled(s: State, l: Label) {
    match l
    case Spawn(tid, th) => tid !in s.threads && IsStart(th)
    case Advance(tid) => tid in s.threads && !Finished(s.threads[tid]) && MayStart(s.t, s.threads[tid])
                         && (s.threads[tid].Collecting? ==> s.threads[tid].names == {})
                         && (s.threads[tid].FetchUser? ==> s.threads[tid].todo != [])
    case Read(tid, name) => tid in s.threads && s.threads[tid].Collecting? && name in s.threads[tid].names
    case Fail(tid) => tid in s.threads && (s.threads[tid].FetchApp? || s.threads[tid].FetchUser?)
  }

  // The tables and the thread after one step of a thread.
  function AdvanceTables(t: Tables, th: Thread): Tables {
    match th
    case AppStart(app, _) => PutApp(t, app)
    case UserStart(user, _) => PutUser(t, user)
    case InstStart(inst, _) => t.(insts := t.insts[InstName(inst) := inst])
    case LinkApp(inst, _) => t.(apps := Connect(t.apps, AppKey(inst), InstName(inst)))
    case LinkUser(inst, _) => t.(users := Connect(t.users, UserKey(inst), InstName(inst)))
    case _ => t
  }

  function AdvanceThread(t: Tables, th: Thread): Thread
    requires th.FetchUser? ==> th.todo != []
  {
    match th
    case AppStart(app, full) => Collecting(InstSet(t.apps, AppName(app)), [], full)
    case UserStart(user, full) => Collecting(InstSet(t.users, UserName(user)), [], full)
    case Collecting(names, found, full) => FetchApp(found)
    case InstStart(inst, full) => LinkApp(inst, full)
    case LinkApp(inst, full) => LinkUser(inst, full)
    case LinkUser(inst, full) => FetchApp(if full then [inst] else [])
    case FetchApp(todo) => if todo == [] then th else FetchUser(todo, ObjOf(t.apps, AppKey(todo[0])))
    case FetchUser(todo, _) => FetchApp(todo[1..])
  }

  // Whether the step is a generation that sees both objects.
  predicate Generates(t: Tables, th: Thread)
    requires th.FetchUser? ==> th.todo != []
  {
    th.FetchUser? && th.seen.Some? && ObjOf(t.users, UserKey(th.todo[0])).Some?
  }

  function Generation(t: Tables, th: Thread): Inputs
    requires th.FetchUser? ==> th.todo != []
    requires Generates(t, th)
  {
    Inputs(InstView(th.todo[0]), AppView(th.seen.value), UserView(ObjOf(t.users, UserKey(th.todo[0])).value))
  }

  function ReadThread(t: Tables, th: Thread, name: string): Thread
    requires th.Collecting?
  {
    Collecting(th.names - {name}, th.found + (if name in t.insts then [t.insts[name]] else []), th.full)
  }

  // The instances a thread was to generate from what the tables hold now: not the one it is at
  // if the application it has looked up for it is no longer the current one.
  function StillToMake(t: Tables, th: Thread): seq<HelxInst>
    requires th.FetchApp? || th.FetchUser?
  {
    if th.FetchApp? || th.todo == [] then th.todo
    else if Complete(t, th.todo[0]) && th.seen.Some?
        && AppView(th.seen.value) == Current(t, th.todo[0]).app then th.todo
    else th.todo[1..]
  }

  function Apply(s: State, l: Label): State
    requires Enabled(s, l)
  {
    match l
    case Spawn(tid, th) => s.(threads := s.threads[tid := th])
    case Advance(tid) =>
      var th := s.threads[tid];
      var moved := s.(t := AdvanceTables(s.t, th), threads := s.threads[tid := AdvanceThread(s.t, th)]);
      if Generates(s.t, th) then
        moved.(made := s.made + {Generation(s.t, th)}, last := s.last[InstName(th.todo[0]) := Generation(s.t, th)])
      else moved
    case Read(tid, name) => s.(threads := s.threads[tid := ReadThread(s.t, s.threads[tid], name)])
    case Fail(tid) =>
      s.(threads := s.threads[tid := FetchApp([])],
         dropped := s.dropped + set inst | inst in StillToMake(s.t, s.threads[tid])
             && Complete(s.t, inst) :: Current(s.t, inst))
  }

  ghost predicate IsRun(ss: seq<State>, ls: seq<Label>) {
    && |ss| == |ls| + 1 && ss[0] == INIT
    && forall i :: 0 <= i < |ls| ==> Enabled(ss[i], ls[i]) && ss[i + 1] == Apply(ss[i], ls[i])
  }

  ghost predicate Quiescent(s: State) {
    forall tid :: tid in s.threads ==> Finished(s.threads[tid])
  }

  /* ----- The invariant ----- */

  // The thread has stored an instance of view `v` and has its link to the application, or to
  // the user, still to make.
  ghost predicate LinksApp(th: Thread, v: HelxInst) {
    th.LinkApp? && th.full && InstView(th.inst) == v
  }

  ghost predicate LinksUser(th: Thread, v: HelxInst) {
    (th.LinkApp? || th.LinkUser?) && th.full && InstView(th.inst) == v
  }

  ghost predicate Holds(list: seq<HelxInst>, v: HelxInst) {
    exists i :: 0 <= i < |list| && InstView(list[i]) == v
  }

  // The thread will, if nothing fails, make a generation for the stored instance of view `v`
  // from what the tables hold now; `app` is the view of its application.
  ghost predicate Derives(th: Thread, v: HelxInst, app: HelxApp) {
    match th
    case LinkApp(inst, full) => full && InstView(inst) == v
    case LinkUser(inst, full) => full && InstView(inst) == v
    case Collecting(names, found, full) => full && (InstName(v) in names || Holds(found, v))
    case FetchApp(todo) => Holds(todo, v)
    case FetchUser(todo, seen) =>
      todo != [] && ((InstView(todo[0]) == v && seen.Some? && AppView(seen.value) == app) || Holds(todo[1..], v))
    case _ => false
  }

  ghost predicate SomeLinksApp(s: State, v: HelxInst) {
    exists tid :: tid in s.threads && LinksApp(s.threads[tid], v)
  }

  ghost predicate SomeLinksUser(s: State, v: HelxInst) {
    exists tid :: tid in s.threads && LinksUser(s.threads[tid], v)
  }

  ghost predicate SomeDerives(s: State, v: HelxInst, app: HelxApp) {
    exists tid :: tid in s.threads && Derives(s.threads[tid], v, app)
  }

  ghost predicate LinkedApp(s: State, v: HelxInst) {
    InstName(v) in InstSet(s.t.apps, AppKey(v)) || SomeLinksApp(s, v)
  }

  ghost predicate LinkedUser(s: State, v: HelxInst) {
    InstName(v) in InstSet(s.t.users, UserKey(v)) || SomeLinksUser(s, v)
  }

  // What is owed to a stored instance of view `v`.
  ghost predicate Settled(s: State, v: HelxInst) {
    && LinkedApp(s, v) && LinkedUser(s, v)
    && (Complete(s.t, v) ==>
          Current(s.t, v) in s.made || Current(s.t, v) in s.dropped || SomeDerives(s, v, Current(s.t, v).app))
  }

  // A generation or a lookup that saw an object leaves that object's key filled.
  ghost predicate Sound(s: State) {
    && (forall g :: g in s.made ==> Complete(s.t, g.inst))
    && (forall tid :: tid in s.threads && s.threads[tid].FetchUser? ==>
          && s.threads[tid].todo != []
          && (s.threads[tid].seen.Some? ==> ObjOf(s.t.apps, AppKey(s.threads[tid].todo[0])).Some?))
  }

  ghost predicate Inv(s: State) {
    && Keyed(s.t)
    && Sound(s)
    && forall k :: k in s.t.insts ==> Settled(s, InstView(s.t.insts[k]))
  }

  lemma ObjectsStay(t: Tables, th: Thread)
    ensures forall key :: ObjOf(t.apps, key).Some? ==> ObjOf(AdvanceTables(t, th).apps, key).Some?
    ensures forall key :: ObjOf(t.users, key).Some? ==> ObjOf(AdvanceTables(t, th).users, key).Some?
    ensures Keyed(t) ==> Keyed(AdvanceTables(t, th))
  {
  }

  lemma SoundStep(s: State, l: Label)
    requires Keyed(s.t) && Sound(s) && Enabled(s, l)
    ensures Keyed(Apply(s, l).t) && Sound(Apply(s, l))
  {
    if l.Advance? { ObjectsStay(s.t, s.threads[l.tid]); }
  }

  // A thread that did not move still does what it was to do.
  lemma Others(s: State, l: Label, tid: nat)
    requires Enabled(s, l) && tid in s.threads && tid != Tid(l)
    ensures tid in Apply(s, l).threads && Apply(s, l).threads[tid] == s.threads[tid]
  {
  }

  // A step of a thread leaves it linking, or the link made.
  lemma LinksAppStep(s: State, l: Label, v: HelxInst)
    requires Enabled(s, l) && LinkedApp(s, v)
    ensures LinkedApp(Apply(s, l), v)
  {
    if InstName(v) !in InstSet(s.t.apps, AppKey(v)) {
      var tid :| tid in s.threads && LinksApp(s.threads[tid], v);
      if tid != Tid(l) { Others(s, l, tid); assert LinksApp(Apply(s, l).threads[tid], v); }
    }
  }

  lemma LinksUserStep(s: State, l: Label, v: HelxInst)
    requires Enabled(s, l) && LinkedUser(s, v)
    ensures LinkedUser(Apply(s, l), v)
  {
    if InstName(v) !in InstSet(s.t.users, UserKey(v)) {
      var tid :| tid in s.threads && LinksUser(s.threads[tid], v);
      if tid != Tid(l) {
        Others(s, l, tid);
        assert LinksUser(Apply(s, l).threads[tid], v);
      } else if s.threads[tid].LinkApp? {
        assert LinksUser(Apply(s, l).threads[tid], v);
      }
    }
  }

  lemma DerivesRead(t: Tables, th: Thread, name: string, v: HelxInst, app: HelxApp)
    requires th.Collecting? && name in th.names
    requires InstName(v) in t.insts && InstView(t.insts[InstName(v)]) == v
    requires Derives(th, v, app)
    ensures Derives(ReadThread(t, th, name), v, app)
  {
    var th' := ReadThread(t, th, name);
    if InstName(v) == name {
      assert InstView(th'.found[|th.found|]) == v;
    } else if InstName(v) !in th.names {
      var i :| 0 <= i < |th.found| && InstView(th.found[i]) == v;
      assert th'.found[i] == th.found[i];
    }
  }

  lemma DerivesAdvance(s: State, tid: nat, v: HelxInst)
    requires Enabled(s, Advance(tid)) && Complete(s.t, v) && Derives(s.threads[tid], v, Current(s.t, v).app)
    ensures Derives(AdvanceThread(s.t, s.threads[tid]), v, Current(s.t, v).app)
            || (Generates(s.t, s.threads[tid]) && Generation(s.t, s.threads[tid]) == Current(s.t, v))
  {
    var th, th' := s.threads[tid], AdvanceThread(s.t, s.threads[tid]);
    match th
    case LinkUser(inst, _) => assert InstView(th'.todo[0]) == v;
    case FetchApp(todo) =>
      var i :| 0 <= i < |todo| && InstView(todo[i]) == v;
      if i > 0 { assert todo[1..][i - 1] == todo[i]; }
    case _ =>
  }

  lemma DerivesFail(s: State, tid: nat, v: HelxInst)
    requires Enabled(s, Fail(tid)) && Complete(s.t, v) && Derives(s.threads[tid], v, Current(s.t, v).app)
    ensures Current(s.t, v) in Apply(s, Fail(tid)).dropped
  {
    var th := s.threads[tid];
    var todo := StillToMake(s.t, th);
    assert exists inst :: inst in todo && InstView(inst) == v by {
      if th.FetchUser? && !Holds(th.todo[1..], v) { ViewKeepsNames(th.todo[0]); assert th.todo[0] in todo; }
    }
    var inst :| inst in todo && InstView(inst) == v;
    ViewKeepsNames(inst);
    assert Current(s.t, inst) == Current(s.t, v);
  }

  // A step of a thread that is to derive a stored instance leaves it so, or the generation
  // made, or dropped, as long as the tables hold the same for that instance.
  lemma DerivesStep(s: State, l: Label, v: HelxInst)
    requires Enabled(s, l) && Complete(s.t, v)
    requires InstName(v) in s.t.insts && InstView(s.t.insts[InstName(v)]) == v
    requires Tid(l) in s.threads && Derives(s.threads[Tid(l)], v, Current(s.t, v).app)
    ensures Derives(Apply(s, l).threads[Tid(l)], v, Current(s.t, v).app)
            || Current(s.t, v) in Apply(s, l).made || Current(s.t, v) in Apply(s, l).dropped
  {
    match l
    case Spawn(_, _) =>
    case Fail(tid) => DerivesFail(s, tid, v);
    case Read(tid, name) => DerivesRead(s.t, s.threads[tid], name, v, Current(s.t, v).app);
    case Advance(tid) => DerivesAdvance(s, tid, v);
  }

  // The step by which an instance becomes complete, or one of its partners changes: the
  // partner's own thread has the instance on its list, or the instance's thread is not yet past
  // linking.
  lemma ChangeStep(s: State, l: Label, v: HelxInst)
    requires Enabled(s, l) && LinkedApp(s, v) && LinkedUser(s, v)
    requires Complete(Apply(s, l).t, v) && (Complete(s.t, v) ==> Current(s.t, v) != Current(Apply(s, l).t, v))
    ensures SomeDerives(Apply(s, l), v, Current(Apply(s, l).t, v).app)
  {
    var s', th, app := Apply(s, l), s.threads[Tid(l)], Current(Apply(s, l).t, v).app;
    assert l.Advance? && ((th.AppStart? && AppName(th.app) == AppKey(v)) || (th.UserStart?
        && UserName(th.user) == UserKey(v)));
    assert th.full;
    if th.AppStart? && InstName(v) !in InstSet(s.t.apps, AppKey(v)) {
      var tid :| tid in s.threads && LinksApp(s.threads[tid], v);
      Others(s, l, tid);
      assert Derives(s'.threads[tid], v, app);
    } else if th.UserStart? && InstName(v) !in InstSet(s.t.users, UserKey(v)) {
      var tid :| tid in s.threads && LinksUser(s.threads[tid], v);
      Others(s, l, tid);
      assert Derives(s'.threads[tid], v, app);
    } else {
      assert Derives(s'.threads[Tid(l)], v, app);
    }
  }

  lemma StillDerives(s: State, l: Label, v: HelxInst)
    requires Enabled(s, l) && Complete(s.t, v) && SomeDerives(s, v, Current(s.t, v).app)
    requires InstName(v) in s.t.insts && InstView(s.t.insts[InstName(v)]) == v
    ensures SomeDerives(Apply(s, l), v, Current(s.t, v).app)
            || Current(s.t, v) in Apply(s, l).made || Current(s.t, v) in Apply(s, l).dropped
  {
    var tid :| tid in s.threads && Derives(s.threads[tid], v, Current(s.t, v).app);
    if tid == Tid(l) { DerivesStep(s, l, v); } else { Others(s, l, tid); }
    if Derives(Apply(s, l).threads[tid], v, Current(s.t, v).app) {
      assert SomeDerives(Apply(s, l), v, Current(s.t, v).app);
    }
  }

  lemma SettledStep(s: State, l: Label, v: HelxInst)
    requires Enabled(s, l) && Settled(s, v)
    requires InstName(v) in s.t.insts && InstView(s.t.insts[InstName(v)]) == v
    ensures Settled(Apply(s, l), v)
  {
    var s' := Apply(s, l);
    LinksAppStep(s, l, v);
    LinksUserStep(s, l, v);
    if Complete(s'.t, v) {
      if Complete(s.t, v) && Current(s.t, v) == Current(s'.t, v) {
        if Current(s.t, v) !in s.made && Current(s.t, v) !in s.dropped { StillDerives(s, l, v); }
      } else {
        ChangeStep(s, l, v);
      }
    }
  }

  // An instance stored under a view it did not have is linked, and derived, by the thread that
  // stored it.
  lemma NewlyStored(s: State, l: Label, k: string)
    requires Keyed(s.t) && Enabled(s, l) && k in Apply(s, l).t.insts
    requires k in s.t.insts ==> InstView(s.t.insts[k]) != InstView(Apply(s, l).t.insts[k])
    ensures Settled(Apply(s, l), InstView(Apply(s, l).t.insts[k]))
  {
    var s' := Apply(s, l);
    var v := InstView(s'.t.insts[k]);
    assert l.Advance? && s.threads[l.tid].InstStart? && InstView(s.threads[l.tid].inst) == v;
    assert LinksApp(s'.threads[l.tid], v) && LinksUser(s'.threads[l.tid], v);
    if Complete(s'.t, v) { assert Derives(s'.threads[l.tid], v, Current(s'.t, v).app); }
  }

  lemma InvStep(s: State, l: Label)
    requires Inv(s) && Enabled(s, l)
    ensures Inv(Apply(s, l))
  {
    var s' := Apply(s, l);
    SoundStep(s, l);
    forall k | k in s'.t.insts ensures Settled(s', InstView(s'.t.insts[k])) {
      if k in s.t.insts && InstView(s.t.insts[k]) == InstView(s'.t.insts[k]) {
        SettledStep(s, l, InstView(s.t.insts[k]));
      } else {
        NewlyStored(s, l, k);
      }
    }
  }

  lemma {:induction false} InvHolds(ss: seq<State>, ls: seq<Label>, n: nat)
    requires IsRun(ss, ls) && n < |ss|
    ensures Inv(ss[n])
  {
    if n > 0 {
      InvHolds(ss, ls, n - 1);
      assert Enabled(ss[n - 1], ls[n - 1]);
      InvStep(ss[n - 1], ls[n - 1]);
    }
  }

  /* ----- No lost update, no lost wake-up ----- */

  // Once every reconcile has finished, each stored instance whose application and user are both
  // in the tables has had a generation from exactly what the tables hold for all three, unless
  // a failing reconcile gave up on exactly that.
  lemma NoLostUpdate(ss: seq<State>, ls: seq<Label>)
    requires IsRun(ss, ls) && Quiescent(ss[|ls|])
    ensures var s := ss[|ls|];
            forall k :: k in s.t.insts && Complete(s.t, s.t.insts[k]) ==>
              Current(s.t, s.t.insts[k]) in s.made || Current(s.t, s.t.insts[k]) in s.dropped
  {
    InvHolds(ss, ls, |ls|);
    var s := ss[|ls|];
    forall k | k in s.t.insts && Complete(s.t, s.t.insts[k])
      ensures Current(s.t, s.t.insts[k]) in s.made || Current(s.t, s.t.insts[k]) in s.dropped
    {
      var v := InstView(s.t.insts[k]);
      assert Settled(s, v) && Current(s.t, s.t.insts[k]) == Current(s.t, v);
      assert !SomeDerives(s, v, Current(s.t, v).app);
    }
  }

  lemma {:induction false} NothingDropped(ss: seq<State>, ls: seq<Label>, n: nat)
    requires IsRun(ss, ls) && n < |ss|
    requires forall l :: l in ls ==> !l.Fail?
    ensures ss[n].dropped == {}
  {
    if n > 0 {
      NothingDropped(ss, ls, n - 1);
      assert ls[n - 1] in ls;
    }
  }

  ghost predicate DerivedAs(s: State, inst: HelxInst) {
    exists g :: g in s.made && g.inst == InstView(inst)
  }

  // Without failures, the stored instances derived as they are stored are exactly those whose
  // application and user are both in the tables, and their latest state has been derived.
  lemma NoLostWakeup(ss: seq<State>, ls: seq<Label>)
    requires IsRun(ss, ls) && Quiescent(ss[|ls|])
    requires forall l :: l in ls ==> !l.Fail?
    ensures var s := ss[|ls|];
            forall k :: k in s.t.insts ==>
              && (DerivedAs(s, s.t.insts[k]) <==> Complete(s.t, s.t.insts[k]))
              && (Complete(s.t, s.t.insts[k]) ==> Current(s.t, s.t.insts[k]) in s.made)
  {
    NoLostUpdate(ss, ls);
    NothingDropped(ss, ls, |ls|);
    InvHolds(ss, ls, |ls|);
    var s := ss[|ls|];
    forall k | k in s.t.insts ensures DerivedAs(s, s.t.insts[k]) <==> Complete(s.t, s.t.insts[k]) {
      if Complete(s.t, s.t.insts[k]) { assert Current(s.t, s.t.insts[k]).inst == InstView(s.t.insts[k]); }
      if g :| g in s.made && g.inst == InstView(s.t.insts[k]) { assert Complete(s.t, g.inst); }
    }
  }

  /* ----- Reconciles run on their own ----- */

  ghost predicate Reachable(s: State) {
    exists ss, ls :: IsRun(ss, ls) && ss[|ls|] == s
  }

  lemma Reach(s: State, l: Label) returns (s': State)
    requires Reachable(s) && Enabled(s, l)
    ensures s' == Apply(s, l) && Reachable(s')
  {
    var ss, ls :| IsRun(ss, ls) && ss[|ls|] == s;
    s' := Apply(s, l);
    assert IsRun(ss + [s'], ls + [l]);
  }

  // An uninterrupted AddInst is the three steps of an instance's thread.
  lemma InstSteps(t: Tables, inst: HelxInst, full: bool)
    ensures AdvanceTables(AdvanceTables(AdvanceTables(t, InstStart(inst, full)), LinkApp(inst, full)),
        LinkUser(inst, full))
            == PutInst(t, inst)
  {
  }

  // `s` with thread `tid` standing at `th`.
  function At(s: State, tid: nat, th: Thread): State {
    s.(threads := s.threads[tid := th])
  }

  // A step that generates nothing, of the one thread that moves.
  lemma Move(s: State, tid: nat, th: Thread) returns (s': State, th': Thread)
    requires Reachable(At(s, tid, th)) && Enabled(At(s, tid, th), Advance(tid)) && !Generates(s.t, th)
    ensures s' == s.(t := AdvanceTables(s.t, th)) && th' == AdvanceThread(s.t, th)
    ensures Reachable(At(s', tid, th'))
  {
    s', th' := s.(t := AdvanceTables(s.t, th)), AdvanceThread(s.t, th);
    var r := Reach(At(s, tid, th), Advance(tid));
    assert s.threads[tid := th][tid := th'] == s.threads[tid := th'];
    assert r == At(s', tid, th');
  }

  lemma UserAlone(s: State, tid: nat, user: HelxUser) returns (s': State)
    requires Reachable(s) && tid !in s.threads && InstSet(s.t.users, UserName(user)) == {}
    ensures s' == At(s.(t := PutUser(s.t, user)), tid, FetchApp([])) && Reachable(s')
  {
    s' := Reach(s, Spawn(tid, UserStart(user, true)));
    var b, th := Move(s, tid, UserStart(user, true));
    b, th := Move(b, tid, th);
    s' := At(b, tid, th);
  }

  lemma AppAlone(s: State, tid: nat, app: HelxApp) returns (s': State)
    requires Reachable(s) && tid !in s.threads && InstSet(s.t.apps, AppName(app)) == {}
    ensures s' == At(s.(t := PutApp(s.t, app)), tid, FetchApp([])) && Reachable(s')
  {
    s' := Reach(s, Spawn(tid, AppStart(app, true)));
    var b, th := Move(s, tid, AppStart(app, true));
    b, th := Move(b, tid, th);
    s' := At(b, tid, th);
  }

  // An instance's thread up to its lookup of the application.
  lemma InstUpToFetch(s: State, tid: nat, inst: HelxInst) returns (s': State)
    requires Reachable(s) && tid !in s.threads
    ensures s' == At(s.(t := PutInst(s.t, inst)), tid, FetchUser([inst], ObjOf(s.t.apps, AppKey(inst))))
        && Reachable(s')
  {
    s' := Reach(s, Spawn(tid, InstStart(inst, true)));
    var b, th := Move(s, tid, InstStart(inst, true));
    b, th := Move(b, tid, th);
    b, th := Move(b, tid, th);
    InstSteps(s.t, inst, true);
    b, th := Move(b, tid, th);
    s' := At(b, tid, th);
  }

  // Reading the one instance of a list, and looking up its application.
  lemma ReadOne(s: State, tid: nat, inst: HelxInst) returns (s': State)
    requires Reachable(At(s, tid, Collecting({InstName(inst)}, [], true)))
    requires InstName(inst) in s.t.insts && s.t.insts[InstName(inst)] == inst
    ensures s' == At(s, tid, FetchUser([inst], ObjOf(s.t.apps, AppKey(inst)))) && Reachable(s')
  {
    s' := Reach(At(s, tid, Collecting({InstName(inst)}, [], true)), Read(tid, InstName(inst)));
    var read := Collecting({}, [inst], true);
    assert ReadThread(s.t, Collecting({InstName(inst)}, [], true), InstName(inst)) == read;
    assert s' == At(s, tid, read);
    var b, th := Move(s, tid, read);
    b, th := Move(b, tid, th);
    s' := At(b, tid, th);
  }

  // An application's thread up to the same point, with one instance waiting for it.
  lemma AppUpToFetch(s: State, tid: nat, app: HelxApp, inst: HelxInst) returns (s': State)
    requires Reachable(s) && tid !in s.threads
    requires InstSet(s.t.apps, AppName(app)) == {InstName(inst)} && AppKey(inst) == AppName(app)
    requires InstName(inst) in s.t.insts && s.t.insts[InstName(inst)] == inst
    ensures s' == At(s.(t := PutApp(s.t, app)), tid, FetchUser([inst], Some(app))) && Reachable(s')
  {
    s' := Reach(s, Spawn(tid, AppStart(app, true)));
    var b, th := Move(s, tid, AppStart(app, true));
    s' := ReadOne(b, tid, inst);
  }

  /* ----- Where the protocol falls short ----- */

  lemma InstWithoutApp(app: HelxApp, user: HelxUser, inst: HelxInst) returns (s: State)
    requires AppKey(inst) == AppName(app) && UserKey(inst) == UserName(user)
    ensures Reachable(s) && Quiescent(s) && s.made == {} && s.threads.Keys == {0, 1}
    ensures s.t == PutInst(PutUser(EMPTY, user), inst)
    ensures InstSet(s.t.apps, AppName(app)) == {InstName(inst)}
  {
    assert IsRun([INIT], []);
    s := UserAlone(INIT, 0, user);
    s := InstUpToFetch(s, 1, inst);
    s := Reach(s, Advance(1));
    assert s.threads[1] == FetchApp([]);
  }

  // A derivation that fails ends its reconcile for good: with everything finished and all
  // three resources there, the instance has not been derived.
  lemma FailureLosesWakeup(app: HelxApp, user: HelxUser, inst: HelxInst)
    requires AppKey(inst) == AppName(app) && UserKey(inst) == UserName(user)
    ensures exists s ::
      && Reachable(s) && Quiescent(s)
      && InstName(inst) in s.t.insts && s.t.insts[InstName(inst)] == inst
      && Complete(s.t, inst) && !DerivedAs(s, inst)
  {
    var s := InstWithoutApp(app, user, inst);
    s := AppUpToFetch(s, 2, app, inst);
    s := Reach(s, Fail(2));
    assert Quiescent(s) && Complete(s.t, inst) && s.made == {};
  }

  lemma GenerateLast(s: State, tid: nat, inst: HelxInst, app: HelxApp, user: HelxUser) returns (s': State)
    requires Reachable(s) && tid in s.threads && s.threads[tid] == FetchUser([inst], Some(app))
    requires ObjOf(s.t.users, UserKey(inst)) == Some(user)
    ensures Reachable(s')
    ensures var g := Inputs(InstView(inst), AppView(app), UserView(user));
            s' == At(s.(made := s.made + {g}, last := s.last[InstName(inst) := g]), tid, FetchApp([]))
  {
    s' := Reach(s, Advance(tid));
    assert [inst][1..] == [];
  }

  // The instance's thread has looked up the older application, the update's own the newer one.
  lemma BothSeen(older: HelxApp, newer: HelxApp, user: HelxUser, inst: HelxInst) returns (s: State)
    requires AppName(older) == AppName(newer)
    requires AppKey(inst) == AppName(older) && UserKey(inst) == UserName(user)
    ensures Reachable(s) && s.dropped == {}
    ensures s.threads == map[0 := FetchApp([]), 1 := FetchApp([]), 2 := FetchUser([inst], Some(older)),
        3 := FetchUser([inst], Some(newer))]
    ensures ObjOf(s.t.apps, AppKey(inst)) == Some(newer) && ObjOf(s.t.users, UserKey(inst)) == Some(user)
  {
    assert IsRun([INIT], []);
    s := UserAlone(INIT, 0, user);
    s := AppAlone(s, 1, older);
    s := InstUpToFetch(s, 2, inst);
    s := AppUpToFetch(s, 3, newer, inst);
  }

  // No update is lost, but the last generation need not be of the latest: an instance's
  // reconcile that read the application before it was updated may generate after the update's
  // own reconcile, which did generate from the latest.
  lemma LastGenerationMayBeStale(older: HelxApp, newer: HelxApp, user: HelxUser, inst: HelxInst)
    requires AppName(older) == AppName(newer) && AppView(older) != AppView(newer)
    requires AppKey(inst) == AppName(older) && UserKey(inst) == UserName(user)
    ensures exists s ::
      && Reachable(s) && Quiescent(s) && s.dropped == {}
      && Complete(s.t, inst) && Current(s.t, inst).app == AppView(newer) && Current(s.t, inst) in s.made
      && InstName(inst) in s.last && s.last[InstName(inst)].app == AppView(older)
  {
    var s := BothSeen(older, newer, user, inst);
    s := GenerateLast(s, 3, inst, newer, user);
    s := GenerateLast(s, 2, inst, older, user);
    assert Quiescent(s);
  }
}
