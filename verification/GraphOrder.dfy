// The three resources arrive in any order: the tables they leave behind, and the instances
// that get derived on the way, do not depend on it.
module GraphOrder {
  import opened Resources
  import opened Graph
  import opened GraphIndex

  ghost predicate IsAdd(op: Op) {
    op.AddApp? || op.AddUser? || op.AddInst?
  }

  ghost predicate AllAdds(ops: seq<Op>) {
    forall op :: op in ops ==> IsAdd(op)
  }

  // Whether two additions are of one kind and name.
  ghost predicate SameResource(a: Op, b: Op) {
    || (a.AddApp? && b.AddApp? && AppName(a.app) == AppName(b.app))
    || (a.AddUser? && b.AddUser? && UserName(a.user) == UserName(b.user))
    || (a.AddInst? && b.AddInst? && InstName(a.inst) == InstName(b.inst))
  }

  ghost predicate Distinct(ops: seq<Op>) {
    forall i, j :: 0 <= i < j < |ops| ==> !SameResource(ops[i], ops[j])
  }

  /* ----- The tables as a description of an unordered collection of additions ----- */

  ghost function AppsOf(ops: seq<Op>): set<HelxApp> {
    set op | op in ops && op.AddApp? :: op.app
  }

  ghost function UsersOf(ops: seq<Op>): set<HelxUser> {
    set op | op in ops && op.AddUser? :: op.user
  }

  ghost function InstsOf(ops: seq<Op>): set<HelxInst> {
    set op | op in ops && op.AddInst? :: op.inst
  }

  // Which instance is linked to which key.
  ghost function Links(insts: set<HelxInst>, key: HelxInst -> string): set<(string, string)> {
    set inst | inst in insts :: (InstName(inst), key(inst))
  }

  // `m` holds the objects `objs` under their names, has the links `links`, and nothing else.
  ghost predicate TableIs<T(!new)>(m: Table<T>, name: T -> string, objs: set<T>, links: set<(string, string)>) {
    && (forall key :: ObjOf(m, key).Some? ==> name(ObjOf(m, key).value) == key)
    && (forall o :: ObjOf(m, name(o)) == Some(o) <==> o in objs)
    && (forall k, key :: k in InstSet(m, key) <==> (k, key) in links)
    && (forall key :: key in m <==> ObjOf(m, key).Some? || InstSet(m, key) != {})
  }

  lemma PutObjDescribed<T(!new)>(m: Table<T>, name: T -> string, objs: set<T>, links: set<(string, string)>, o: T)
    requires TableIs(m, name, objs, links)
    requires forall p :: p in objs ==> name(p) != name(o)
    ensures TableIs(PutObj(m, name(o), o), name, objs + {o}, links)
  {
  }

  lemma ConnectDescribed<T(!new)>(m: Table<T>, name: T -> string, objs: set<T>, links: set<(string, string)>,
                           key: string, k: string)
    requires TableIs(m, name, objs, links)
    ensures TableIs(Connect(m, key, k), name, objs, links + {(k, key)})
  {
    var m' := Connect(m, key, k);
    forall x ensures x in m' <==> ObjOf(m', x).Some? || InstSet(m', x) != {} {
      if x == key { assert k in InstSet(m', x); }
    }
  }

  lemma TableIsUnique<T(!new)>(m: Table<T>, n: Table<T>, name: T -> string, objs: set<T>, links: set<(string, string)>)
    requires TableIs(m, name, objs, links) && TableIs(n, name, objs, links)
    ensures m == n
  {
    forall key ensures ObjOf(m, key) == ObjOf(n, key) && InstSet(m, key) == InstSet(n, key) {
      if ObjOf(m, key).Some? { assert ObjOf(m, key).value in objs; }
      if ObjOf(n, key).Some? { assert ObjOf(n, key).value in objs; }
      forall k ensures k in InstSet(m, key) <==> k in InstSet(n, key) {
        assert k in InstSet(m, key) <==> (k, key) in links;
      }
    }
  }

  ghost predicate InstsAre(m: map<string, HelxInst>, insts: set<HelxInst>) {
    && (forall k :: k in m ==> InstName(m[k]) == k)
    && (forall inst :: InstName(inst) in m && m[InstName(inst)] == inst <==> inst in insts)
  }

  ghost predicate Describes(apps: set<HelxApp>, users: set<HelxUser>, insts: set<HelxInst>, t: Tables) {
    && TableIs(t.apps, AppName, apps, Links(insts, AppKey))
    && TableIs(t.users, UserName, users, Links(insts, UserKey))
    && InstsAre(t.insts, insts)
  }

  lemma LinksGrow(insts: set<HelxInst>, inst: HelxInst, key: HelxInst -> string)
    ensures Links(insts + {inst}, key) == Links(insts, key) + {(InstName(inst), key(inst))}
  {
  }

  ghost predicate Fresh(op: Op, apps: set<HelxApp>, users: set<HelxUser>, insts: set<HelxInst>) {
    && (forall o :: o in apps ==> !SameResource(AddApp(o), op))
    && (forall o :: o in users ==> !SameResource(AddUser(o), op))
    && (forall o :: o in insts ==> !SameResource(AddInst(o), op))
  }

  lemma DescribeAddApp(apps: set<HelxApp>, users: set<HelxUser>, insts: set<HelxInst>, t: Tables, app: HelxApp)
    requires Describes(apps, users, insts, t)
    requires Fresh(AddApp(app), apps, users, insts)
    ensures Describes(apps + {app}, users, insts, PutApp(t, app))
  {
    assert forall o :: o in apps ==> !SameResource(AddApp(o), AddApp(app));
    PutObjDescribed(t.apps, AppName, apps, Links(insts, AppKey), app);
  }

  lemma DescribeAddUser(apps: set<HelxApp>, users: set<HelxUser>, insts: set<HelxInst>, t: Tables, user: HelxUser)
    requires Describes(apps, users, insts, t)
    requires Fresh(AddUser(user), apps, users, insts)
    ensures Describes(apps, users + {user}, insts, PutUser(t, user))
  {
    assert forall o :: o in users ==> !SameResource(AddUser(o), AddUser(user));
    PutObjDescribed(t.users, UserName, users, Links(insts, UserKey), user);
  }

  lemma InstsAreGrows(m: map<string, HelxInst>, insts: set<HelxInst>, inst: HelxInst)
    requires InstsAre(m, insts)
    requires forall o :: o in insts ==> InstName(o) != InstName(inst)
    ensures InstsAre(m[InstName(inst) := inst], insts + {inst})
  {
  }

  lemma DescribeAddInst(apps: set<HelxApp>, users: set<HelxUser>, insts: set<HelxInst>, t: Tables, inst: HelxInst)
    requires Describes(apps, users, insts, t)
    requires Fresh(AddInst(inst), apps, users, insts)
    ensures Describes(apps, users, insts + {inst}, PutInst(t, inst))
  {
    assert forall o :: o in insts ==> !SameResource(AddInst(o), AddInst(inst));
    LinksGrow(insts, inst, AppKey);
    LinksGrow(insts, inst, UserKey);
    ConnectDescribed(t.apps, AppName, apps, Links(insts, AppKey), AppKey(inst), InstName(inst));
    ConnectDescribed(t.users, UserName, users, Links(insts, UserKey), UserKey(inst), InstName(inst));
    InstsAreGrows(t.insts, insts, inst);
  }

  lemma SplitLast(init: seq<Op>, op: Op, ops: seq<Op>)
    requires ops == init + [op]
    ensures AppsOf(ops) == AppsOf(init) + (if op.AddApp? then {op.app} else {})
    ensures UsersOf(ops) == UsersOf(init) + (if op.AddUser? then {op.user} else {})
    ensures InstsOf(ops) == InstsOf(init) + (if op.AddInst? then {op.inst} else {})
  {
    assert forall o :: o in ops <==> o in init || o == op;
  }

  lemma DescribeStep(apps: set<HelxApp>, users: set<HelxUser>, insts: set<HelxInst>, t: Tables, op: Op)
    requires IsAdd(op) && Fresh(op, apps, users, insts) && Describes(apps, users, insts, t)
    ensures Describes(apps + (if op.AddApp? then {op.app} else {}),
                      users + (if op.AddUser? then {op.user} else {}),
                      insts + (if op.AddInst? then {op.inst} else {}), Step(t, op))
  {
    assert apps + {} == apps && users + {} == users && insts + {} == insts;
    match op
    case AddApp(app) => DescribeAddApp(apps, users, insts, t, app);
    case AddUser(user) => DescribeAddUser(apps, users, insts, t, user);
    case AddInst(inst) => DescribeAddInst(apps, users, insts, t, inst);
  }

  lemma LastIsFresh(init: seq<Op>, op: Op, ops: seq<Op>)
    requires ops == init + [op] && Distinct(ops)
    ensures Fresh(op, AppsOf(init), UsersOf(init), InstsOf(init))
  {
    forall o | o in init ensures !SameResource(o, op) {
      var i :| 0 <= i < |init| && init[i] == o;
      assert ops[i] == o && ops[|init|] == op;
    }
  }

  lemma {:induction false} RunIsDescribed(ops: seq<Op>)
    requires AllAdds(ops) && Distinct(ops)
    ensures Describes(AppsOf(ops), UsersOf(ops), InstsOf(ops), Run(ops))
  {
    if ops == [] {
      assert AppsOf(ops) == {} && UsersOf(ops) == {} && InstsOf(ops) == {};
    } else {
      var init, op := ops[..|ops| - 1], ops[|ops| - 1];
      assert ops == init + [op];
      RunIsDescribed(init);
      SplitLast(init, op, ops);
      LastIsFresh(init, op, ops);
      DescribeStep(AppsOf(init), UsersOf(init), InstsOf(init), Run(init), op);
    }
  }

  lemma SameAdditions(a: seq<Op>, b: seq<Op>)
    requires multiset(a) == multiset(b)
    ensures AppsOf(a) == AppsOf(b) && UsersOf(a) == UsersOf(b) && InstsOf(a) == InstsOf(b)
  {
    assert forall op :: op in a <==> op in multiset(a);
    assert forall op :: op in b <==> op in multiset(b);
  }

  lemma OrderDoesNotMatter(a: seq<Op>, b: seq<Op>)
    requires AllAdds(a) && AllAdds(b) && Distinct(a) && Distinct(b)
    requires multiset(a) == multiset(b)
    ensures Run(a) == Run(b)
  {
    SameAdditions(a, b);
    RunIsDescribed(a);
    RunIsDescribed(b);
    TableIsUnique(Run(a).apps, Run(b).apps, AppName, AppsOf(a), Links(InstsOf(a), AppKey));
    TableIsUnique(Run(a).users, Run(b).users, UserName, UsersOf(a), Links(InstsOf(a), UserKey));
  }

  lemma AddsAreIdempotent(t: Tables, op: Op)
    requires IsAdd(op)
    ensures Step(Step(t, op), op) == Step(t, op)
  {
  }

  /* ----- What is derived along the way ----- */

  ghost function CompleteNames(t: Tables): set<string> {
    set k | k in t.insts && Complete(t, t.insts[k])
  }

  // The instances derived when `op` is reconciled in `t`: the ones the addition hands back, or
  // the added one, provided both of its partners are there by then.
  ghost function DerivedBy(t: Tables, op: Op): set<string> {
    var t' := Step(t, op);
    match op
    case AddApp(app) => set k | k in InstSet(t.apps, AppName(app)) && k in CompleteNames(t')
    case AddUser(user) => set k | k in InstSet(t.users, UserName(user)) && k in CompleteNames(t')
    case AddInst(inst) => {InstName(inst)} * CompleteNames(t')
    case _ => {}
  }

  ghost function Derived(ops: seq<Op>): set<string> {
    if ops == [] then {}
    else Derived(ops[..|ops| - 1]) + DerivedBy(Run(ops[..|ops| - 1]), ops[|ops| - 1])
  }

  lemma DerivedStep(t: Tables, op: Op)
    requires Keyed(t) && Indexed(t) && IsAdd(op)
    requires op.AddInst? && InstName(op.inst) in t.insts ==>
               && AppKey(op.inst) == AppKey(t.insts[InstName(op.inst)])
               && UserKey(op.inst) == UserKey(t.insts[InstName(op.inst)])
    ensures CompleteNames(Step(t, op)) == CompleteNames(t) + DerivedBy(t, op)
  {
  }

  lemma AddsNeverEvict(ops: seq<Op>)
    requires AllAdds(ops)
    ensures NeverEvicts(ops)
  {
    forall i | 0 <= i < |ops| ensures !ops[i].DeleteInst? {
      assert IsAdd(ops[i]);
    }
  }

  lemma StoredUnderSameReferences(init: seq<Op>, inst: HelxInst, ops: seq<Op>)
    requires ops == init + [AddInst(inst)] && StableReferences(ops)
    ensures InstName(inst) in Run(init).insts ==>
              && AppKey(inst) == AppKey(Run(init).insts[InstName(inst)])
              && UserKey(inst) == UserKey(Run(init).insts[InstName(inst)])
  {
    Provenance(init);
    if InstName(inst) in Run(init).insts {
      var i :| 0 <= i < |init| && init[i] == AddInst(Run(init).insts[InstName(inst)]);
      assert ops[i] == init[i] && ops[|init|] == AddInst(inst);
    }
  }

  lemma {:induction false} DerivedAreTheComplete(ops: seq<Op>)
    requires AllAdds(ops) && StableReferences(ops)
    ensures Derived(ops) == CompleteNames(Run(ops))
  {
    if ops == [] {
      assert CompleteNames(EMPTY) == {};
    } else {
      var n := |ops| - 1;
      var init, op := ops[..n], ops[n];
      assert forall o :: o in init ==> o in ops;
      assert StableReferences(init);
      DerivedAreTheComplete(init);
      AddsNeverEvict(init);
      RunKeepsIndex(init);
      if op.AddInst? { StoredUnderSameReferences(init, op.inst, ops); }
      DerivedStep(Run(init), op);
    }
  }

  // Which instances get derived: those that were added, whose application was added, and
  // whose user was added, at whatever point of the run each of them came.
  ghost predicate TripleOccurs(ops: seq<Op>, inst: HelxInst) {
    && inst in InstsOf(ops)
    && (exists app :: app in AppsOf(ops) && AppName(app) == AppKey(inst))
    && (exists user :: user in UsersOf(ops) && UserName(user) == UserKey(inst))
  }

  lemma DerivedAreTheTriples(ops: seq<Op>)
    requires AllAdds(ops) && Distinct(ops)
    ensures forall inst :: inst in InstsOf(ops) ==> (InstName(inst) in Derived(ops) <==> TripleOccurs(ops, inst))
    ensures forall k :: k in Derived(ops) ==> exists inst :: inst in InstsOf(ops) && InstName(inst) == k
  {
    DerivedAreTheComplete(ops);
    RunIsDescribed(ops);
    var t := Run(ops);
    forall inst | inst in InstsOf(ops)
      ensures InstName(inst) in CompleteNames(t) <==> TripleOccurs(ops, inst)
    {
      assert t.insts[InstName(inst)] == inst;
      if Complete(t, inst) {
        assert ObjOf(t.apps, AppKey(inst)).value in AppsOf(ops);
        assert ObjOf(t.users, UserKey(inst)).value in UsersOf(ops);
      }
    }
    forall k | k in CompleteNames(t) ensures exists inst :: inst in InstsOf(ops) && InstName(inst) == k {
      assert t.insts[k] in InstsOf(ops);
    }
  }

  // An instance that leaves out its application or its user is never derived.
  lemma EmptyReferenceIsNeverDerived(ops: seq<Op>, inst: HelxInst)
    requires AllAdds(ops) && Distinct(ops) && inst in InstsOf(ops)
    requires inst.appName == "" || inst.userName == ""
    ensures InstName(inst) !in Derived(ops)
  {
    DerivedAreTheTriples(ops);
    assert forall app :: |AppName(app)| > 0;
    assert forall user :: |UserName(user)| > 0;
  }

  lemma DerivationOrderDoesNotMatter(a: seq<Op>, b: seq<Op>)
    requires AllAdds(a) && AllAdds(b) && Distinct(a) && Distinct(b)
    requires multiset(a) == multiset(b)
    ensures Derived(a) == Derived(b)
  {
    OrderDoesNotMatter(a, b);
    DerivedAreTheComplete(a);
    DerivedAreTheComplete(b);
  }
}
