// The instance sets are an inverted index of the instance table: what they are worth, under
// every operation, against a scan of the whole table.
module GraphIndex {
  import opened Resources
  import opened Graph

  ghost predicate Keyed(t: Tables) {
    forall k :: k in t.insts ==> InstName(t.insts[k]) == k
  }

  // Every stored instance is in the set of the application and of the user it refers to.
  ghost predicate Indexed(t: Tables) {
    forall k :: k in t.insts ==>
      && k in InstSet(t.apps, AppKey(t.insts[k]))
      && k in InstSet(t.users, UserKey(t.insts[k]))
  }

  // What a scan of the instance table finds for an application or a user.
  ghost function ScanApp(t: Tables, key: string): set<HelxInst> {
    set k | k in t.insts && AppKey(t.insts[k]) == key :: t.insts[k]
  }

  ghost function ScanUser(t: Tables, key: string): set<HelxInst> {
    set k | k in t.insts && UserKey(t.insts[k]) == key :: t.insts[k]
  }

  // The stored instances a set of names stands for.
  ghost function Stored(names: set<string>, insts: map<string, HelxInst>): set<HelxInst> {
    set k | k in names && k in insts :: insts[k]
  }

  /* ----- A returned list holds each stored instance of the set, exactly once ----- */

  lemma {:induction false} LookupIsExact(order: seq<string>, insts: map<string, HelxInst>)
    requires forall k :: k in insts ==> InstName(insts[k]) == k
    requires forall i, j :: 0 <= i < j < |order| ==> order[i] != order[j]
    ensures multiset(Lookup(order, insts)) == multiset(Stored(Elements(order), insts))
  {
    if order == [] {
      assert Stored(Elements(order), insts) == {};
    } else {
      var init, n := order[..|order| - 1], order[|order| - 1];
      LookupIsExact(init, insts);
    }
  }

  lemma ListingIsExact(list: seq<HelxInst>, names: set<string>, insts: map<string, HelxInst>)
    requires forall k :: k in insts ==> InstName(insts[k]) == k
    requires IsListing(list, names, insts)
    ensures multiset(list) == multiset(Stored(names, insts))
  {
    var order :| Enumerates(order, names) && list == Lookup(order, insts);
    LookupIsExact(order, insts);
    assert Elements(order) == names;
  }

  /* ----- Operations and runs ----- */

  datatype Op =
    | AddApp(app: HelxApp)
    | AddUser(user: HelxUser)
    | AddInst(inst: HelxInst)
    | DeleteApp(name: string)
    | DeleteUser(name: string)
    | DeleteInst(name: string)

  function Step(t: Tables, op: Op): Tables {
    match op
    case AddApp(app) => PutApp(t, app)
    case AddUser(user) => PutUser(t, user)
    case AddInst(inst) => PutInst(t, inst)
    case DeleteApp(_) => t
    case DeleteUser(_) => t
    case DeleteInst(name) => DropInst(t, name)
  }

  function Run(ops: seq<Op>): Tables {
    if ops == [] then EMPTY else Step(Run(ops[..|ops| - 1]), ops[|ops| - 1])
  }

  // Deleting `name` as the code does takes another live instance out of the index when that
  // instance bears the very name the deleted one used as a slash-qualified reference, and
  // itself refers to the entry of that name.
  ghost predicate Evicts(t: Tables, name: string) {
    name in t.insts && exists k ::
      && k in t.insts && k != name
      && ((k == t.insts[name].appName && AppKey(t.insts[k]) == k)
          || (k == t.insts[name].userName && UserKey(t.insts[k]) == k))
  }

  lemma DropInstKeepsIndexIff(t: Tables, name: string)
    requires Keyed(t) && Indexed(t)
    ensures Indexed(DropInst(t, name)) <==> !Evicts(t, name)
  {
    if name in t.insts {
      var t', inst := DropInst(t, name), t.insts[name];
      forall k | k in t'.insts
        ensures k !in InstSet(t'.apps, AppKey(t.insts[k])) <==> k == inst.appName && AppKey(t.insts[k]) == k
        ensures k !in InstSet(t'.users, UserKey(t.insts[k])) <==> k == inst.userName && UserKey(t.insts[k]) == k
      {
      }
      if Evicts(t, name) {
        var k :| k in t.insts && k != name
                 && ((k == inst.appName && AppKey(t.insts[k]) == k) || (k == inst.userName
                     && UserKey(t.insts[k]) == k));
        assert k in t'.insts;
      }
    }
  }

  // A deletion takes the one instance out of the instance table, and leaves every other
  // instance and every application and user as it is.
  lemma DeletedInstIsGone(t: Tables, name: string)
    ensures name !in DropInst(t, name).insts
    ensures forall k :: k != name && k in t.insts ==>
              k in DropInst(t, name).insts && DropInst(t, name).insts[k] == t.insts[k]
    ensures DropInst(t, name).insts.Keys <= t.insts.Keys
    ensures forall key :: ObjOf(DropInst(t, name).apps, key) == ObjOf(t.apps, key)
    ensures forall key :: ObjOf(DropInst(t, name).users, key) == ObjOf(t.users, key)
  {
  }

  // With the removal the code was meant to make, the index survives every deletion and the
  // deleted name is gone from both sets.
  lemma DropInstAsMeantKeepsIndex(t: Tables, name: string)
    requires Keyed(t) && Indexed(t)
    ensures Indexed(DropInstAsMeant(t, name)) && Keyed(DropInstAsMeant(t, name))
    ensures name in t.insts ==>
              && name !in InstSet(DropInstAsMeant(t, name).apps, AppKey(t.insts[name]))
              && name !in InstSet(DropInstAsMeant(t, name).users, UserKey(t.insts[name]))
  {
  }

  lemma StepKeepsIndex(t: Tables, op: Op)
    requires Keyed(t) && Indexed(t)
    requires op.DeleteInst? ==> !Evicts(t, op.name)
    ensures Keyed(Step(t, op)) && Indexed(Step(t, op))
  {
    if op.DeleteInst? {
      DropInstKeepsIndexIff(t, op.name);
    }
  }

  ghost predicate NeverEvicts(ops: seq<Op>) {
    forall i :: 0 <= i < |ops| && ops[i].DeleteInst? ==> !Evicts(Run(ops[..i]), ops[i].name)
  }

  lemma {:induction false} RunKeepsIndex(ops: seq<Op>)
    requires NeverEvicts(ops)
    ensures Keyed(Run(ops)) && Indexed(Run(ops))
  {
    if ops != [] {
      var init := ops[..|ops| - 1];
      forall i | 0 <= i < |init| ensures init[..i] == ops[..i] && init[i] == ops[i] {}
      RunKeepsIndex(init);
      StepKeepsIndex(Run(init), ops[|ops| - 1]);
    }
  }

  // Whatever list an operation returns for an application or a user, it holds each instance a
  // full scan finds, and every instance in it once, as last stored.
  ghost predicate CoversScan(t: Tables, key: string, apps: seq<HelxInst>, users: seq<HelxInst>) {
    && multiset(ScanApp(t, key)) <= multiset(apps)
    && multiset(ScanUser(t, key)) <= multiset(users)
    && (forall v :: multiset(apps)[v] <= 1 && multiset(users)[v] <= 1)
    && (forall v :: v in apps || v in users ==> InstName(v) in t.insts && t.insts[InstName(v)] == v)
  }

  ghost predicate AreListings(t: Tables, key: string, apps: seq<HelxInst>, users: seq<HelxInst>) {
    && IsListing(apps, InstSet(t.apps, key), t.insts)
    && IsListing(users, InstSet(t.users, key), t.insts)
  }

  lemma IndexCoversScan(t: Tables, key: string, apps: seq<HelxInst>, users: seq<HelxInst>)
    requires Keyed(t) && Indexed(t) && AreListings(t, key, apps, users)
    ensures CoversScan(t, key, apps, users)
  {
    ListingIsExact(apps, InstSet(t.apps, key), t.insts);
    ListingIsExact(users, InstSet(t.users, key), t.insts);
    assert ScanApp(t, key) <= Stored(InstSet(t.apps, key), t.insts);
    assert ScanUser(t, key) <= Stored(InstSet(t.users, key), t.insts);
    forall v | v in apps || v in users
      ensures InstName(v) in t.insts && t.insts[InstName(v)] == v
    {
      assert v in multiset(apps) || v in multiset(users);
    }
  }

  lemma ListCoversScan(ops: seq<Op>, key: string, apps: seq<HelxInst>, users: seq<HelxInst>)
    requires NeverEvicts(ops) && AreListings(Run(ops), key, apps, users)
    ensures CoversScan(Run(ops), key, apps, users)
  {
    RunKeepsIndex(ops);
    IndexCoversScan(Run(ops), key, apps, users);
  }

  /* ----- When the index is no larger than the scan ----- */

  // A stored instance in the set of an application, or of a user, it does not refer to.
  ghost predicate StrayApp(t: Tables, key: string, k: string) {
    k in InstSet(t.apps, key) && k in t.insts && AppKey(t.insts[k]) != key
  }

  ghost predicate StrayUser(t: Tables, key: string, k: string) {
    k in InstSet(t.users, key) && k in t.insts && UserKey(t.insts[k]) != key
  }

  lemma AppListIsScanIff(t: Tables, key: string)
    requires Keyed(t) && Indexed(t)
    ensures Stored(InstSet(t.apps, key), t.insts) == ScanApp(t, key) <==> forall k :: !StrayApp(t, key, k)
  {
    var listed := Stored(InstSet(t.apps, key), t.insts);
    if k :| StrayApp(t, key, k) {
      assert t.insts[k] in listed && t.insts[k] !in ScanApp(t, key);
    } else {
      forall k | k in InstSet(t.apps, key) && k in t.insts ensures AppKey(t.insts[k]) == key {
        assert !StrayApp(t, key, k);
      }
      assert listed == ScanApp(t, key);
    }
  }

  lemma UserListIsScanIff(t: Tables, key: string)
    requires Keyed(t) && Indexed(t)
    ensures Stored(InstSet(t.users, key), t.insts) == ScanUser(t, key) <==> forall k :: !StrayUser(t, key, k)
  {
    var listed := Stored(InstSet(t.users, key), t.insts);
    if k :| StrayUser(t, key, k) {
      assert t.insts[k] in listed && t.insts[k] !in ScanUser(t, key);
    } else {
      forall k | k in InstSet(t.users, key) && k in t.insts ensures UserKey(t.insts[k]) == key {
        assert !StrayUser(t, key, k);
      }
      assert listed == ScanUser(t, key);
    }
  }

  lemma SameSet<T>(a: set<T>, b: set<T>)
    ensures multiset(a) == multiset(b) <==> a == b
  {
    if multiset(a) == multiset(b) {
      assert forall x :: x in a <==> x in multiset(a);
      assert forall x :: x in b <==> x in multiset(b);
    }
  }

  // A listing is the scan exactly if no such instance is in the set.
  lemma ListIsScanIff(t: Tables, key: string, apps: seq<HelxInst>, users: seq<HelxInst>)
    requires Keyed(t) && Indexed(t) && AreListings(t, key, apps, users)
    ensures multiset(apps) == multiset(ScanApp(t, key)) <==> forall k :: !StrayApp(t, key, k)
    ensures multiset(users) == multiset(ScanUser(t, key)) <==> forall k :: !StrayUser(t, key, k)
  {
    ListingIsExact(apps, InstSet(t.apps, key), t.insts);
    ListingIsExact(users, InstSet(t.users, key), t.insts);
    AppListIsScanIff(t, key);
    UserListIsScanIff(t, key);
    SameSet(Stored(InstSet(t.apps, key), t.insts), ScanApp(t, key));
    SameSet(Stored(InstSet(t.users, key), t.insts), ScanUser(t, key));
  }

  // An instance that is pointed at another application stays in the set of the first.
  lemma RetargetLeavesStray(t: Tables, before: HelxInst, after: HelxInst)
    requires InstName(before) == InstName(after) && AppKey(before) != AppKey(after)
    ensures StrayApp(Step(Step(t, AddInst(before)), AddInst(after)), AppKey(before), InstName(after))
  {
  }

  // No instance is added twice under one name with different references.
  ghost predicate StableReferences(ops: seq<Op>) {
    forall i, j :: 0 <= i < |ops| && 0 <= j < |ops| && ops[i].AddInst? && ops[j].AddInst?
                   && InstName(ops[i].inst) == InstName(ops[j].inst) ==>
      AppKey(ops[i].inst) == AppKey(ops[j].inst) && UserKey(ops[i].inst) == UserKey(ops[j].inst)
  }

  ghost predicate Added(ops: seq<Op>, inst: HelxInst) {
    exists i :: 0 <= i < |ops| && ops[i] == AddInst(inst)
  }

  ghost predicate AddedForApp(ops: seq<Op>, k: string, key: string) {
    exists i :: 0 <= i < |ops| && ops[i].AddInst? && InstName(ops[i].inst) == k && AppKey(ops[i].inst) == key
  }

  ghost predicate AddedForUser(ops: seq<Op>, k: string, key: string) {
    exists i :: 0 <= i < |ops| && ops[i].AddInst? && InstName(ops[i].inst) == k && UserKey(ops[i].inst) == key
  }

  lemma SetGrowsByOp(t: Tables, op: Op, k: string, key: string)
    ensures k in InstSet(Step(t, op).apps, key) ==> k in InstSet(t.apps, key) || AddedForApp([op], k, key)
    ensures k in InstSet(Step(t, op).users, key) ==> k in InstSet(t.users, key) || AddedForUser([op], k, key)
    ensures k in Step(t, op).insts ==>
              (k in t.insts && Step(t, op).insts[k] == t.insts[k])
              || (op.AddInst? && op.inst == Step(t, op).insts[k] && InstName(op.inst) == k)
  {
    assert [op][0] == op;
  }

  // Everything in the tables was put there by some addition of the run.
  lemma {:induction false} Provenance(ops: seq<Op>)
    ensures forall k :: k in Run(ops).insts ==> Added(ops, Run(ops).insts[k]) && InstName(Run(ops).insts[k]) == k
    ensures forall k, key :: k in InstSet(Run(ops).apps, key) ==> AddedForApp(ops, k, key)
    ensures forall k, key :: k in InstSet(Run(ops).users, key) ==> AddedForUser(ops, k, key)
  {
    if ops != [] {
      var init, op := ops[..|ops| - 1], ops[|ops| - 1];
      assert ops == init + [op];
      Provenance(init);
      forall k | k in Run(ops).insts ensures Added(ops, Run(ops).insts[k]) && InstName(Run(ops).insts[k]) == k {
        SetGrowsByOp(Run(init), op, k, "");
      }
      forall k, key
        ensures k in InstSet(Run(ops).apps, key) ==> AddedForApp(ops, k, key)
        ensures k in InstSet(Run(ops).users, key) ==> AddedForUser(ops, k, key)
      {
        SetGrowsByOp(Run(init), op, k, key);
      }
    }
  }

  // No stored instance is in the set of an application or user it does not refer to.
  ghost predicate Tight(t: Tables) {
    && (forall k, key :: k in InstSet(t.apps, key) && k in t.insts ==> AppKey(t.insts[k]) == key)
    && (forall k, key :: k in InstSet(t.users, key) && k in t.insts ==> UserKey(t.insts[k]) == key)
  }

  lemma StableRunIsTight(ops: seq<Op>)
    requires StableReferences(ops)
    ensures Tight(Run(ops))
  {
    var t := Run(ops);
    Provenance(ops);
    forall k, key | k in InstSet(t.apps, key) && k in t.insts ensures AppKey(t.insts[k]) == key {
      assert AddedForApp(ops, k, key) && Added(ops, t.insts[k]);
    }
    forall k, key | k in InstSet(t.users, key) && k in t.insts ensures UserKey(t.insts[k]) == key {
      assert AddedForUser(ops, k, key) && Added(ops, t.insts[k]);
    }
  }

  lemma TightIndexEqualsScan(t: Tables, key: string, apps: seq<HelxInst>, users: seq<HelxInst>)
    requires Keyed(t) && Indexed(t) && Tight(t) && AreListings(t, key, apps, users)
    ensures multiset(apps) == multiset(ScanApp(t, key))
    ensures multiset(users) == multiset(ScanUser(t, key))
  {
    ListingIsExact(apps, InstSet(t.apps, key), t.insts);
    ListingIsExact(users, InstSet(t.users, key), t.insts);
    assert Stored(InstSet(t.apps, key), t.insts) == ScanApp(t, key);
    assert Stored(InstSet(t.users, key), t.insts) == ScanUser(t, key);
  }

  lemma ListEqualsScan(ops: seq<Op>, key: string, apps: seq<HelxInst>, users: seq<HelxInst>)
    requires NeverEvicts(ops) && StableReferences(ops) && AreListings(Run(ops), key, apps, users)
    ensures multiset(apps) == multiset(ScanApp(Run(ops), key))
    ensures multiset(users) == multiset(ScanUser(Run(ops), key))
  {
    RunKeepsIndex(ops);
    StableRunIsTight(ops);
    TightIndexEqualsScan(Run(ops), key, apps, users);
  }

  /* ----- Deviations ----- */

  // An instance that bears the name of the application it refers to is evicted when another
  // instance, which names that application with its namespace, is deleted.
  lemma DeleteInstEvicts(live: HelxInst, other: HelxInst)
    requires AppKey(live) == InstName(live) == other.appName && InstName(other) != InstName(live)
    ensures var t := PutInst(PutInst(EMPTY, live), other);
            Keyed(t) && Indexed(t) && Evicts(t, InstName(other)) && !Indexed(DropInst(t, InstName(other)))
  {
    var t := PutInst(PutInst(EMPTY, live), other);
    DropInstKeepsIndexIff(t, InstName(other));
  }

  lemma DeleteInstEvictsExample(live: HelxInst, other: HelxInst)
    requires live == HelxInst("ns", "lab", 1, 0, "1", "lab", "ann")
    requires other == HelxInst("ns", "two", 1, 0, "2", "ns/lab", "ann")
    ensures !Indexed(DropInst(PutInst(PutInst(EMPTY, live), other), "ns/two"))
  {
    assert InstName(live) == "ns/lab" && InstName(other) == "ns/two";
    DeleteInstEvicts(live, other);
  }

  // Deleting an application never clears its entry: it still counts as present.
  lemma DeletedAppStaysPresent(t: Tables, app: HelxApp)
    ensures ObjOf(Step(Step(t, AddApp(app)), DeleteApp(AppName(app))).apps, AppName(app)) == Some(app)
  {
  }
}
