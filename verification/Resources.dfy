// The three custom resources, reduced to the fields the controller's logic reads,
// and the names under which it files them.
module Resources {

  datatype Option<+T> = None | Some(value: T)

  // One container of an application: `volumes` maps a volume id to a volume string.
  datatype Service = Service(name: string, image: string, volumes: map<string, string>)

  datatype HelxApp = HelxApp(namespace: string, name: string,
                             generation: int, observedGeneration: int,
                             appClassName: string, services: seq<Service>)

  datatype HelxUser = HelxUser(namespace: string, name: string,
                               generation: int, observedGeneration: int,
                               userHandle: Option<string>)

  datatype HelxInst = HelxInst(namespace: string, name: string,
                               generation: int, observedGeneration: int,
                               uuid: string, appName: string, userName: string)

  // What the artifacts of an instance are generated from. Generations are not read.
  datatype Inputs = Inputs(inst: HelxInst, app: HelxApp, user: HelxUser)

  function InstView(inst: HelxInst): HelxInst {
    inst.(generation := 0, observedGeneration := 0)
  }

  function AppView(app: HelxApp): HelxApp {
    app.(generation := 0, observedGeneration := 0)
  }

  function UserView(user: HelxUser): HelxUser {
    user.(generation := 0, observedGeneration := 0)
  }

  function NamespacedName(namespace: string, name: string): string {
    namespace + "/" + name
  }

  // A reference that contains a slash is taken as it stands, a bare one is looked up in the
  // namespace of the instance that holds it, and an empty one resolves to the empty key.
  function Resolve(namespace: string, reference: string): string {
    if reference == "" then ""
    else if '/' in reference then reference
    else NamespacedName(namespace, reference)
  }

  function AppName(app: HelxApp): string {
    NamespacedName(app.namespace, app.name)
  }

  function UserName(user: HelxUser): string {
    NamespacedName(user.namespace, user.name)
  }

  function InstName(inst: HelxInst): string {
    NamespacedName(inst.namespace, inst.name)
  }

  function AppKey(inst: HelxInst): string {
    Resolve(inst.namespace, inst.appName)
  }

  function UserKey(inst: HelxInst): string {
    Resolve(inst.namespace, inst.userName)
  }

  lemma ViewKeepsNames(inst: HelxInst)
    ensures InstName(InstView(inst)) == InstName(inst)
    ensures AppKey(InstView(inst)) == AppKey(inst) && UserKey(InstView(inst)) == UserKey(inst)
    ensures InstView(InstView(inst)) == InstView(inst)
  {
  }

  lemma SplitsUniquely(a: string, b: string, c: string, d: string)
    requires '/' !in a && '/' !in c && NamespacedName(a, b) == NamespacedName(c, d)
    ensures a == c && b == d
  {
    var s := NamespacedName(a, b);
    assert s[|a|] == '/' && s[|c|] == '/';
    assert a == s[..|a|] && c == s[..|c|];
    assert b == s[|a| + 1..] && d == s[|c| + 1..];
  }

  // A reference means a resource, whose namespace and name hold no slash, exactly if it is the
  // resource's qualified name, or its bare name in its own namespace.
  lemma ReferenceMeans(home: string, reference: string, namespace: string, name: string)
    requires '/' !in home && '/' !in namespace && '/' !in name && name != ""
    ensures Resolve(home, reference) == NamespacedName(namespace, name)
            <==> reference == NamespacedName(namespace, name) || (reference == name && home == namespace)
  {
    assert NamespacedName(namespace, name)[|namespace|] == '/';
    if reference != "" && '/' !in reference && Resolve(home, reference) == NamespacedName(namespace, name) {
      SplitsUniquely(home, reference, namespace, name);
    }
  }

  ghost predicate NoSlash(s: string) {
    '/' !in s
  }

  // An instance meets an application, and a user, exactly if it refers to it by namespace and
  // name, or by the name alone from the same namespace.
  lemma PartnersMeet(inst: HelxInst, app: HelxApp, user: HelxUser)
    requires NoSlash(inst.namespace) && NoSlash(app.namespace) && NoSlash(app.name) && app.name != ""
    requires NoSlash(user.namespace) && NoSlash(user.name) && user.name != ""
    ensures AppKey(inst) == AppName(app) <==>
              || inst.appName == app.namespace + "/" + app.name
              || (inst.appName == app.name && inst.namespace == app.namespace)
    ensures UserKey(inst) == UserName(user) <==>
              || inst.userName == user.namespace + "/" + user.name
              || (inst.userName == user.name && inst.namespace == user.namespace)
  {
    ReferenceMeans(inst.namespace, inst.appName, app.namespace, app.name);
    ReferenceMeans(inst.namespace, inst.userName, user.namespace, user.name);
  }

  // Resources are filed under one name only if they are one resource.
  lemma NamesAreOnes(a: HelxInst, b: HelxInst)
    requires NoSlash(a.namespace) && NoSlash(b.namespace)
    ensures InstName(a) == a.namespace + "/" + a.name
    ensures InstName(a) == InstName(b) <==> a.namespace == b.namespace && a.name == b.name
  {
    if InstName(a) == InstName(b) { SplitsUniquely(a.namespace, a.name, b.namespace, b.name); }
  }

  // Two resources are the same for generation exactly if they differ in their generations alone.
  lemma ViewsLeaveOutGenerations(i: HelxInst, j: HelxInst, a: HelxApp, b: HelxApp, u: HelxUser, v: HelxUser)
    ensures InstView(i) == InstView(j) <==>
              i == j.(generation := i.generation, observedGeneration := i.observedGeneration)
    ensures AppView(a) == AppView(b) <==>
              a == b.(generation := a.generation, observedGeneration := a.observedGeneration)
    ensures UserView(u) == UserView(v) <==>
              u == v.(generation := u.generation, observedGeneration := u.observedGeneration)
  {
  }

  // `names` lists the elements of `s`, each once, in some order: how a Go map is ranged over.
  ghost predicate Enumerates<T(!new)>(names: seq<T>, s: set<T>) {
    && (forall n :: n in names <==> n in s)
    && (forall i, j :: 0 <= i < j < |names| ==> names[i] != names[j])
  }

  lemma EnumeratesAppend<T(!new)>(a: seq<T>, s: set<T>, b: seq<T>, t: set<T>)
    requires Enumerates(a, s) && Enumerates(b, t) && s !! t
    ensures Enumerates(a + b, s + t)
  {
    forall i, j | 0 <= i < j < |a + b| ensures (a + b)[i] != (a + b)[j] {
      if i < |a| <= j {
        assert a[i] in s && b[j - |a|] in t;
      }
    }
  }

  lemma {:induction false} EnumerationLength<T(!new)>(names: seq<T>, s: set<T>)
    requires Enumerates(names, s)
    ensures |names| == |s|
  {
    if names == [] {
      assert s == {};
    } else {
      var n := |names| - 1;
      assert names == names[..n] + [names[n]];
      EnumerationLength(names[..n], s - {names[n]});
    }
  }

  lemma SomeOrder<T(!new)>(s: set<T>) returns (order: seq<T>)
    ensures Enumerates(order, s)
    decreases s
  {
    if s == {} {
      order := [];
    } else {
      var x :| x in s;
      var rest := SomeOrder(s - {x});
      order := [x] + rest;
    }
  }

  lemma OrderEndingIn<T(!new)>(s: set<T>, x: T) returns (order: seq<T>)
    requires x in s
    ensures Enumerates(order, s) && order != [] && order[|order| - 1] == x
  {
    var rest := SomeOrder(s - {x});
    order := rest + [x];
    assert s - {x} + {x} == s;
  }

  ghost function Elements<T>(s: seq<T>): set<T> {
    set x | x in s
  }

  lemma SubsetSize<T>(a: set<T>, b: set<T>)
    requires a <= b
    ensures |a| <= |b|
  {
    assert b == a + (b - a);
  }
}
