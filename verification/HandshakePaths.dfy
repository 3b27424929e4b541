// Which reconciles make generations, over every run of the three side by side, and from what:
// only those on the full path do, and only from what was in the tables.
module HandshakePaths {
  import opened Resources
  import opened Graph
  import opened GraphIndex
  import opened Handshake

  /* ----- The short path derives nothing ----- */

  lemma Unmoved(s: State, l: Label, tid: nat)
    requires Enabled(s, l) && tid in Apply(s, l).threads && tid != Tid(l)
    ensures tid in s.threads && Apply(s, l).threads[tid] == s.threads[tid]
  {
  }

  predicate StartsFull(th: Thread) {
    match th
    case AppStart(_, full) => full
    case UserStart(_, full) => full
    case InstStart(_, full) => full
    case _ => false
  }

  // A thread that has nothing to generate, now or later.
  predicate IsShort(th: Thread) {
    match th
    case AppStart(_, full) => !full
    case UserStart(_, full) => !full
    case Collecting(_, _, full) => !full
    case InstStart(_, full) => !full
    case LinkApp(_, full) => !full
    case LinkUser(_, full) => !full
    case FetchApp(todo) => todo == []
    case FetchUser(_, _) => false
  }

  lemma ShortStep(s: State, l: Label)
    requires Enabled(s, l) && (Tid(l) in s.threads ==> IsShort(s.threads[Tid(l)]))
    requires l.Spawn? ==> !StartsFull(l.thread)
    ensures IsShort(Apply(s, l).threads[Tid(l)])
    ensures Apply(s, l).made == s.made && Apply(s, l).last == s.last && Apply(s, l).dropped == s.dropped
  {
    if l.Fail? { assert StillToMake(s.t, s.threads[l.tid]) == []; }
  }

  // The thread was started on the full path.
  ghost predicate SpawnedFull(ls: seq<Label>, n: nat, tid: nat)
    requires n <= |ls|
  {
    exists m :: 0 <= m < n && ls[m].Spawn? && ls[m].tid == tid && StartsFull(ls[m].thread)
  }

  lemma {:induction false} OthersAreShort(ss: seq<State>, ls: seq<Label>, n: nat, tid: nat)
    requires IsRun(ss, ls) && n < |ss| && tid in ss[n].threads && !SpawnedFull(ls, n, tid)
    ensures IsShort(ss[n].threads[tid])
  {
    if n > 0 {
      var s, l := ss[n - 1], ls[n - 1];
      assert Enabled(s, l) && ss[n] == Apply(s, l);
      if tid in s.threads { OthersAreShort(ss, ls, n - 1, tid); }
      if tid == Tid(l) { ShortStep(s, l); }
    }
  }

  // Over every run, a step that makes a generation, or gives one up, is one of a reconcile that
  // was started on the full path; a reconcile that finds its generation observed, of whatever
  // resource, changes the tables and nothing else.
  lemma OnlyFullPathsGenerate(ss: seq<State>, ls: seq<Label>, n: nat)
    requires IsRun(ss, ls) && n < |ls|
    requires ss[n + 1].made != ss[n].made || ss[n + 1].last != ss[n].last || ss[n + 1].dropped != ss[n].dropped
    ensures SpawnedFull(ls, n, Tid(ls[n]))
  {
    var s, l := ss[n], ls[n];
    assert Enabled(s, l) && ss[n + 1] == Apply(s, l);
    if Tid(l) in s.threads && !SpawnedFull(ls, n, Tid(l)) {
      OthersAreShort(ss, ls, n, Tid(l));
      ShortStep(s, l);
    }
  }

  // Resyncs alone, however many and of whatever resources, leave what was made as it is.
  lemma {:induction false} ResyncsMakeNothing(ss: seq<State>, ls: seq<Label>, m: nat, n: nat)
    requires IsRun(ss, ls) && m <= n < |ss| && Quiescent(ss[m])
    requires forall i :: m <= i < n && ls[i].Spawn? ==> !StartsFull(ls[i].thread)
    ensures ss[n].made == ss[m].made && ss[n].last == ss[m].last && ss[n].dropped == ss[m].dropped
    ensures forall tid :: tid in ss[n].threads ==> IsShort(ss[n].threads[tid])
    decreases n
  {
    if m < n {
      var s, l := ss[n - 1], ls[n - 1];
      ResyncsMakeNothing(ss, ls, m, n - 1);
      assert Enabled(s, l) && ss[n] == Apply(s, l);
      ShortStep(s, l);
      forall tid | tid in ss[n].threads ensures IsShort(ss[n].threads[tid]) {
        if tid != Tid(l) { Unmoved(s, l, tid); }
      }
    }
  }

  /* ----- Nothing is made up ----- */

  ghost predicate WasStored(ss: seq<State>, n: nat, inst: HelxInst)
    requires n < |ss|
  {
    exists m :: 0 <= m <= n && InstName(inst) in ss[m].t.insts && ss[m].t.insts[InstName(inst)] == inst
  }

  ghost predicate WasApp(ss: seq<State>, n: nat, key: string, app: HelxApp)
    requires n < |ss|
  {
    exists m :: 0 <= m <= n && ObjOf(ss[m].t.apps, key) == Some(app)
  }

  ghost predicate WasUser(ss: seq<State>, n: nat, key: string, user: HelxUser)
    requires n < |ss|
  {
    exists m :: 0 <= m <= n && ObjOf(ss[m].t.users, key) == Some(user)
  }

  // The instances a thread has read or stored were stored, and the application it has looked up
  // was there.
  ghost predicate FromTables(ss: seq<State>, n: nat, th: Thread)
    requires n < |ss|
  {
    match th
    case Collecting(_, found, _) => forall i :: 0 <= i < |found| ==> WasStored(ss, n, found[i])
    case LinkApp(inst, _) => WasStored(ss, n, inst)
    case LinkUser(inst, _) => WasStored(ss, n, inst)
    case FetchApp(todo) => forall i :: 0 <= i < |todo| ==> WasStored(ss, n, todo[i])
    case FetchUser(todo, seen) =>
      && todo != [] && (forall i :: 0 <= i < |todo| ==> WasStored(ss, n, todo[i]))
      && (seen.Some? ==> WasApp(ss, n, AppKey(todo[0]), seen.value))
    case _ => true
  }

  ghost predicate WasInputs(ss: seq<State>, n: nat, g: Inputs)
    requires n < |ss|
  {
    exists inst, app, user ::
      && WasStored(ss, n, inst) && WasApp(ss, n, AppKey(inst), app) && WasUser(ss, n, UserKey(inst), user)
      && g == Inputs(InstView(inst), AppView(app), UserView(user))
  }

  lemma FromTablesLater(ss: seq<State>, n: nat, th: Thread)
    requires n + 1 < |ss| && FromTables(ss, n, th)
    ensures FromTables(ss, n + 1, th)
  {
  }

  lemma FromTablesStep(ss: seq<State>, ls: seq<Label>, n: nat)
    requires IsRun(ss, ls) && n < |ls| && Keyed(ss[n].t)
    requires Tid(ls[n]) in ss[n].threads ==> FromTables(ss, n, ss[n].threads[Tid(ls[n])])
    ensures FromTables(ss, n + 1, ss[n + 1].threads[Tid(ls[n])])
  {
    var s, l, s' := ss[n], ls[n], ss[n + 1];
    assert Enabled(s, l) && s' == Apply(s, l);
    if Tid(l) in s.threads {
      var th := s.threads[Tid(l)];
      FromTablesLater(ss, n, th);
      match l
      case Spawn(_, _) =>
      case Fail(_) =>
      case Read(tid, name) =>
        if name in s.t.insts { assert InstName(s.t.insts[name]) == name && WasStored(ss, n + 1, s.t.insts[name]); }
      case Advance(tid) =>
        if th.InstStart? { assert WasStored(ss, n + 1, th.inst); }
        if th.FetchApp? && ObjOf(s.t.apps, AppKey(th.todo[0])).Some? {
          assert WasApp(ss, n + 1, AppKey(th.todo[0]), ObjOf(s.t.apps, AppKey(th.todo[0])).value);
        }
    }
  }

  lemma {:induction false} ThreadsReadTables(ss: seq<State>, ls: seq<Label>, n: nat, tid: nat)
    requires IsRun(ss, ls) && n < |ss| && tid in ss[n].threads
    ensures FromTables(ss, n, ss[n].threads[tid])
  {
    if n > 0 {
      var s, l := ss[n - 1], ls[n - 1];
      assert Enabled(s, l) && ss[n] == Apply(s, l);
      if tid in s.threads { ThreadsReadTables(ss, ls, n - 1, tid); }
      if tid == Tid(l) {
        InvHolds(ss, ls, n - 1);
        FromTablesStep(ss, ls, n - 1);
      } else {
        Unmoved(s, l, tid);
        FromTablesLater(ss, n - 1, s.threads[tid]);
      }
    }
  }

  // Over every run, each generation was made from an instance that was stored, under the keys
  // it refers to, an application and a user that were in the tables.
  lemma {:induction false} NothingIsMadeUp(ss: seq<State>, ls: seq<Label>, n: nat, g: Inputs)
    requires IsRun(ss, ls) && n < |ss| && g in ss[n].made
    ensures WasInputs(ss, n, g)
  {
    var s, l := ss[n - 1], ls[n - 1];
    assert Enabled(s, l) && ss[n] == Apply(s, l);
    if g in s.made {
      NothingIsMadeUp(ss, ls, n - 1, g);
      var inst, app, user :|
        && WasStored(ss, n - 1, inst) && WasApp(ss, n - 1, AppKey(inst), app) && WasUser(ss, n - 1, UserKey(inst), user)
        && g == Inputs(InstView(inst), AppView(app), UserView(user));
      assert WasStored(ss, n, inst) && WasApp(ss, n, AppKey(inst), app) && WasUser(ss, n, UserKey(inst), user);
    } else {
      var th := s.threads[l.tid];
      ThreadsReadTables(ss, ls, n - 1, l.tid);
      var inst, app, user := th.todo[0], th.seen.value, ObjOf(s.t.users, UserKey(th.todo[0])).value;
      assert WasStored(ss, n, inst) && WasApp(ss, n, AppKey(inst), app) && WasUser(ss, n, UserKey(inst), user);
    }
  }
}
