// The in-memory object graph: three tables, where every application and user entry carries
// the names of the instances that refer to it.
module Graph {
  import opened Resources

  datatype Entry<+T> = Entry(obj: Option<T>, instSet: set<string>)

  type Table<T> = map<string, Entry<T>>

  datatype Tables = Tables(apps: Table<HelxApp>, users: Table<HelxUser>, insts: map<string, HelxInst>)

  const EMPTY := Tables(map[], map[], map[])

  /* ----- What one operation does to the tables, as functions ----- */

  function InstSet<T>(m: Table<T>, name: string): set<string> {
    if name in m then m[name].instSet else {}
  }

  function ObjOf<T>(m: Table<T>, name: string): Option<T> {
    if name in m then m[name].obj else None
  }

  function PutObj<T>(m: Table<T>, name: string, obj: T): Table<T> {
    m[name := Entry(Some(obj), InstSet(m, name))]
  }

  function Connect<T>(m: Table<T>, name: string, inst: string): Table<T> {
    m[name := Entry(ObjOf(m, name), InstSet(m, name) + {inst})]
  }

  function Disconnect<T>(m: Table<T>, name: string, inst: string): Table<T> {
    if name in m then m[name := m[name].(instSet := m[name].instSet - {inst})] else m
  }

  function PutApp(t: Tables, app: HelxApp): Tables {
    t.(apps := PutObj(t.apps, AppName(app), app))
  }

  function PutUser(t: Tables, user: HelxUser): Tables {
    t.(users := PutObj(t.users, UserName(user), user))
  }

  function PutInst(t: Tables, inst: HelxInst): Tables {
    Tables(Connect(t.apps, AppKey(inst), InstName(inst)),
           Connect(t.users, UserKey(inst), InstName(inst)),
           t.insts[InstName(inst) := inst])
  }

  // As written: the reference is not resolved, and it is the reference itself, not the
  // instance, that is taken out of the referenced entry's set.
  function DropInst(t: Tables, name: string): Tables {
    if name !in t.insts then t
    else
      var inst := t.insts[name];
      Tables(Disconnect(t.apps, inst.appName, inst.appName),
             Disconnect(t.users, inst.userName, inst.userName),
             t.insts - {name})
  }

  // As meant: the instance leaves the sets of the entries it refers to.
  function DropInstAsMeant(t: Tables, name: string): Tables {
    if name !in t.insts then t
    else
      var inst := t.insts[name];
      Tables(Disconnect(t.apps, AppKey(inst), name),
             Disconnect(t.users, UserKey(inst), name),
             t.insts - {name})
  }

  // The instances of `insts` named in `names`, in that order.
  function Lookup(names: seq<string>, insts: map<string, HelxInst>): seq<HelxInst> {
    if names == [] then []
    else
      var n := names[|names| - 1];
      Lookup(names[..|names| - 1], insts) + if n in insts then [insts[n]] else []
  }

  // The list an operation hands back for an instance set, whatever order the set is ranged in.
  ghost predicate IsListing(list: seq<HelxInst>, names: set<string>, insts: map<string, HelxInst>) {
    exists order :: Enumerates(order, names) && list == Lookup(order, insts)
  }

  // Both partners of an instance are there.
  predicate Complete(t: Tables, inst: HelxInst) {
    ObjOf(t.apps, AppKey(inst)).Some? && ObjOf(t.users, UserKey(inst)).Some?
  }

  // What a generation for the instance would read now.
  function Current(t: Tables, inst: HelxInst): Inputs
    requires Complete(t, inst)
  {
    Inputs(InstView(inst), AppView(ObjOf(t.apps, AppKey(inst)).value), UserView(ObjOf(t.users, UserKey(inst)).value))
  }

  /* ----- The tables as the program keeps them: maps updated in place ----- */

  method Collect(names: seq<string>, insts: map<string, HelxInst>) returns (list: seq<HelxInst>)
    ensures list == Lookup(names, insts)
  {
    list := [];
    for i := 0 to |names|
      invariant list == Lookup(names[..i], insts)
    {
      assert names[..i + 1][..i] == names[..i];
      if names[i] in insts {
        list := list + [insts[names[i]]];
      }
    }
    assert names[..|names|] == names;
  }

  class ObjTable<T> {
    var m: Table<T>

    constructor ()
      ensures m == map[]
    {
      m := map[];
    }

    method ListNames(name: string) returns (names: seq<string>)
      ensures Enumerates(names, InstSet(m, name))
    {
      names := [];
      var rest := if name in m then m[name].instSet else {};
      while rest != {}
        invariant rest <= InstSet(m, name)
        invariant forall n :: n in names <==> n in InstSet(m, name) && n !in rest
        invariant forall i, j :: 0 <= i < j < |names| ==> names[i] != names[j]
        decreases rest
      {
        var n :| n in rest;
        names, rest := names + [n], rest - {n};
      }
    }

    method AddObj(name: string, obj: T, insts: map<string, HelxInst>) returns (list: seq<HelxInst>)
      modifies this
      ensures m == PutObj(old(m), name, obj)
      ensures IsListing(list, InstSet(old(m), name), insts)
    {
      var names := [];
      if name !in m {
        m := m[name := Entry(Some(obj), {})];
      } else {
        m := m[name := m[name].(obj := Some(obj))];
        names := ListNames(name);
      }
      list := Collect(names, insts);
    }

    method ConnectInst(name: string, inst: string)
      modifies this
      ensures m == Connect(old(m), name, inst)
    {
      if name !in m {
        assert InstSet(m, name) + {inst} == {inst};
        m := m[name := Entry(None, {inst})];
      } else {
        m := m[name := m[name].(instSet := m[name].instSet + {inst})];
      }
    }

    method DeleteObj(name: string, insts: map<string, HelxInst>) returns (list: seq<HelxInst>)
      ensures IsListing(list, InstSet(m, name), insts)
    {
      var names := ListNames(name);
      list := Collect(names, insts);
    }

    method GetObj(name: string) returns (obj: Option<T>)
      ensures obj == ObjOf(m, name)
    {
      if name in m {
        obj := m[name].obj;
      } else {
        obj := None;
      }
    }

    method RemoveFromSet(name: string, inst: string)
      modifies this
      ensures m == Disconnect(old(m), name, inst)
    {
      if name in m {
        m := m[name := m[name].(instSet := m[name].instSet - {inst})];
      }
    }
  }

  class ObjectGraph {
    const appTable: ObjTable<HelxApp>
    const userTable: ObjTable<HelxUser>
    var instanceTable: map<string, HelxInst>

    ghost predicate Valid() {
      appTable as object != this && userTable as object != this && appTable as object != userTable
    }

    ghost function Contents(): Tables
      reads this, appTable, userTable
    {
      Tables(appTable.m, userTable.m, instanceTable)
    }

    constructor ()
      ensures Valid() && fresh(appTable) && fresh(userTable)
      ensures Contents() == EMPTY
    {
      appTable := new ObjTable<HelxApp>();
      userTable := new ObjTable<HelxUser>();
      instanceTable := map[];
    }

    method AddApp(app: HelxApp) returns (list: seq<HelxInst>)
      requires Valid()
      modifies appTable
      ensures Contents() == PutApp(old(Contents()), app)
      ensures IsListing(list, InstSet(old(appTable.m), AppName(app)), instanceTable)
    {
      list := appTable.AddObj(AppName(app), app, instanceTable);
    }

    method AddUser(user: HelxUser) returns (list: seq<HelxInst>)
      requires Valid()
      modifies userTable
      ensures Contents() == PutUser(old(Contents()), user)
      ensures IsListing(list, InstSet(old(userTable.m), UserName(user)), instanceTable)
    {
      list := userTable.AddObj(UserName(user), user, instanceTable);
    }

    method AddInst(inst: HelxInst)
      requires Valid()
      modifies this, appTable, userTable
      ensures Contents() == PutInst(old(Contents()), inst)
    {
      instanceTable := instanceTable[InstName(inst) := inst];
      appTable.ConnectInst(AppKey(inst), InstName(inst));
      userTable.ConnectInst(UserKey(inst), InstName(inst));
    }

    method DeleteApp(name: string) returns (list: seq<HelxInst>)
      requires Valid()
      ensures IsListing(list, InstSet(appTable.m, name), instanceTable)
    {
      list := appTable.DeleteObj(name, instanceTable);
    }

    method DeleteUser(name: string) returns (list: seq<HelxInst>)
      requires Valid()
      ensures IsListing(list, InstSet(userTable.m, name), instanceTable)
    {
      list := userTable.DeleteObj(name, instanceTable);
    }

    method DeleteInst(name: string)
      requires Valid()
      modifies this, appTable, userTable
      ensures Contents() == DropInst(old(Contents()), name)
    {
      if name in instanceTable {
        var inst := instanceTable[name];
        appTable.RemoveFromSet(inst.appName, inst.appName);
        userTable.RemoveFromSet(inst.userName, inst.userName);
        instanceTable := instanceTable - {name};
      }
    }
  }
}
