// JSON documents, the patch computed from an existing document to a target, and what applying
// it does, whole or with its removals held back. Operations are those of section 4 of RFC 6902
// that the diff emits; arrays are leaves.
module JsonPatch {
  import opened Resources

  datatype Json =
    | Null
    | Bool(b: bool)
    | Num(n: int)
    | Str(s: string)
    | Arr(items: seq<Json>)
    | Obj(fields: map<string, Json>)

  type Path = seq<string>

  datatype PatchOp =
    | Add(path: Path, value: Json)
    | Replace(path: Path, value: Json)
    | Remove(path: Path)

  /* ----- Applying a patch ----- */

  function ApplyOne(op: PatchOp, j: Json): Option<Json>
    decreases |op.path|
  {
    if op.path == [] then
      if op.Remove? then None else Some(op.value)
    else if !j.Obj? then None
    else
      var k := op.path[0];
      if |op.path| == 1 then
        match op
        case Add(_, v) => Some(Obj(j.fields[k := v]))
        case Replace(_, v) => if k in j.fields then Some(Obj(j.fields[k := v])) else None
        case Remove(_) => if k in j.fields then Some(Obj(j.fields - {k})) else None
      else if k !in j.fields then None
      else
        var child := ApplyOne(op.(path := op.path[1..]), j.fields[k]);
        if child.None? then None else Some(Obj(j.fields[k := child.value]))
  }

  function Apply(ops: seq<PatchOp>, j: Json): Option<Json> {
    if ops == [] then Some(j)
    else
      var next := ApplyOne(ops[0], j);
      if next.None? then None else Apply(ops[1..], next.value)
  }

  // An operation on a field, as section 4 of RFC 6902 has it: an addition sets the field whether
  // or not it is there; a replacement and a removal need it to be there. What is addressed below
  // a field needs the field, and changes nothing but it.
  lemma OperationOnField(j: Json, k: string, v: Json, op: PatchOp)
    requires j.Obj?
    ensures ApplyOne(Add([k], v), j) == Some(Obj(j.fields[k := v]))
    ensures ApplyOne(Replace([k], v), j) == if k in j.fields then Some(Obj(j.fields[k := v])) else None
    ensures ApplyOne(Remove([k]), j) == if k in j.fields then Some(Obj(j.fields - {k})) else None
    ensures op.path != [] ==>
              var below := ApplyOne(op.(path := [k] + op.path), j);
              if k !in j.fields || ApplyOne(op, j.fields[k]).None? then below.None?
              else below == Some(Obj(j.fields[k := ApplyOne(op, j.fields[k]).value]))
  {
    assert ([k] + op.path)[1..] == op.path;
    assert op.(path := [k] + op.path).(path := op.path) == op;
  }

  // All of a patch, or what is left of it without its removals.
  function Kept(ops: seq<PatchOp>, all: bool): seq<PatchOp> {
    if ops == [] then []
    else (if all || !ops[0].Remove? then [ops[0]] else []) + Kept(ops[1..], all)
  }

  /* ----- Computing a patch ----- */

  predicate SameKind(a: Json, b: Json) {
    match a
    case Null => b.Null?
    case Bool(_) => b.Bool?
    case Num(_) => b.Num?
    case Str(_) => b.Str?
    case Arr(_) => b.Arr?
    case Obj(_) => b.Obj?
  }

  // The order in which the keys of a Go map come up, here, for additions or for removals.
  type KeyOrder = (bool, Path, set<string>) -> seq<string>

  ghost predicate Orders(ord: KeyOrder) {
    forall removals, here, keys :: Enumerates(ord(removals, here, keys), keys)
  }

  function Lift(k: string, ops: seq<PatchOp>): seq<PatchOp> {
    if ops == [] then [] else [ops[0].(path := [k] + ops[0].path)] + Lift(k, ops[1..])
  }

  function Removals(keys: seq<string>): seq<PatchOp> {
    if keys == [] then [] else [Remove([keys[0]])] + Removals(keys[1..])
  }

  function Diff(a: Json, b: Json, here: Path, ord: KeyOrder): seq<PatchOp>
    requires Orders(ord)
    decreases b
  {
    if !SameKind(a, b) then [Replace([], b)]
    else if b.Obj? then
      DiffKeys(a, b, ord(false, here, b.fields.Keys), here, ord)
      + Removals(ord(true, here, a.fields.Keys - b.fields.Keys))
    else if a == b then []
    else [Replace([], b)]
  }

  function DiffKeys(a: Json, b: Json, keys: seq<string>, here: Path, ord: KeyOrder): seq<PatchOp>
    requires Orders(ord) && a.Obj? && b.Obj? && forall k :: k in keys ==> k in b.fields
    decreases b, |keys|
  {
    if keys == [] then []
    else
      var k := keys[0];
      (if k !in a.fields then [Add([k], b.fields[k])]
       else Lift(k, Diff(a.fields[k], b.fields[k], here + [k], ord)))
      + DiffKeys(a, b, keys[1..], here, ord)
  }

  /* ----- What a patch leaves ----- */

  // Every field of the target, and below them every field only the existing document has.
  function Overlay(a: Json, b: Json): Json
    decreases b
  {
    if a.Obj? && b.Obj? then
      Obj(map k | k in a.fields.Keys + b.fields.Keys ::
            if k !in b.fields then a.fields[k]
            else if k !in a.fields then b.fields[k]
            else Overlay(a.fields[k], b.fields[k]))
    else b
  }

  // Field by field: what only one of the two has stays as it is, what both have is overlaid.
  lemma OverlayFields(a: Json, b: Json)
    ensures !(a.Obj? && b.Obj?) ==> Overlay(a, b) == b
    ensures a.Obj? && b.Obj? ==>
              && Overlay(a, b).Obj?
              && (forall f :: f in Overlay(a, b).fields <==> f in a.fields || f in b.fields)
              && (forall f :: f in a.fields && f !in b.fields ==> Overlay(a, b).fields[f] == a.fields[f])
              && (forall f :: f in b.fields && f !in a.fields ==> Overlay(a, b).fields[f] == b.fields[f])
              && (forall f :: f in a.fields && f in b.fields ==>
                    Overlay(a, b).fields[f] == Overlay(a.fields[f], b.fields[f]))
  {
  }

  function Outcome(a: Json, b: Json, all: bool): Json {
    if all then b else Overlay(a, b)
  }

  lemma {:induction false} ApplyAppends(x: seq<PatchOp>, y: seq<PatchOp>, j: Json)
    ensures Apply(x + y, j) == if Apply(x, j).None? then None else Apply(y, Apply(x, j).value)
  {
    if x == [] {
      assert x + y == y;
    } else {
      assert (x + y)[0] == x[0] && (x + y)[1..] == x[1..] + y;
      if ApplyOne(x[0], j).Some? { ApplyAppends(x[1..], y, ApplyOne(x[0], j).value); }
    }
  }

  lemma {:induction false} KeptAppends(x: seq<PatchOp>, y: seq<PatchOp>, all: bool)
    ensures Kept(x + y, all) == Kept(x, all) + Kept(y, all)
  {
    if x == [] {
      assert x + y == y;
    } else {
      assert (x + y)[0] == x[0] && (x + y)[1..] == x[1..] + y;
      KeptAppends(x[1..], y, all);
    }
  }

  lemma {:induction false} KeptLifts(k: string, ops: seq<PatchOp>, all: bool)
    ensures Kept(Lift(k, ops), all) == Lift(k, Kept(ops, all))
  {
    if ops != [] {
      KeptLifts(k, ops[1..], all);
      var o := ops[0].(path := [k] + ops[0].path);
      assert Lift(k, ops)[0] == o && Lift(k, ops)[1..] == Lift(k, ops[1..]);
      var tail := Kept(ops[1..], all);
      if all || !ops[0].Remove? {
        assert ([ops[0]] + tail)[0] == ops[0] && ([ops[0]] + tail)[1..] == tail;
      } else {
        assert [] + tail == tail && [] + Lift(k, tail) == Lift(k, tail);
      }
    }
  }

  ghost predicate KeepsRoot(ops: seq<PatchOp>) {
    forall op :: op in ops && op.Remove? ==> op.path != []
  }

  // Operations below a field act on that field alone.
  lemma {:induction false} ApplyLifted(k: string, ops: seq<PatchOp>, m: map<string, Json>)
    requires k in m && KeepsRoot(ops) && Apply(ops, m[k]).Some?
    ensures Apply(Lift(k, ops), Obj(m)) == Some(Obj(m[k := Apply(ops, m[k]).value]))
  {
    if ops == [] {
      assert m[k := m[k]] == m;
    } else {
      var op := ops[0];
      var lifted := op.(path := [k] + op.path);
      assert op in ops && lifted.path[0] == k && lifted.path[1..] == op.path;
      assert lifted.(path := op.path) == op;
      var v := ApplyOne(op, m[k]).value;
      assert ApplyOne(lifted, Obj(m)) == Some(Obj(m[k := v]));
      assert Lift(k, ops)[0] == lifted && Lift(k, ops)[1..] == Lift(k, ops[1..]);
      ApplyLifted(k, ops[1..], m[k := v]);
      assert m[k := v][k := Apply(ops[1..], v).value] == m[k := Apply(ops[1..], v).value];
    }
  }

  lemma {:induction false} LiftKeepsRoot(k: string, ops: seq<PatchOp>)
    ensures KeepsRoot(Lift(k, ops))
  {
    if ops != [] { LiftKeepsRoot(k, ops[1..]); }
  }

  lemma {:induction false} RemovalsKeepRoot(keys: seq<string>)
    ensures KeepsRoot(Removals(keys))
  {
    if keys != [] { RemovalsKeepRoot(keys[1..]); }
  }

  lemma {:induction false} DiffKeysKeepRoot(a: Json, b: Json, keys: seq<string>, here: Path, ord: KeyOrder)
    requires Orders(ord) && a.Obj? && b.Obj? && forall k :: k in keys ==> k in b.fields
    ensures KeepsRoot(DiffKeys(a, b, keys, here, ord))
    decreases |keys|
  {
    if keys != [] {
      var k := keys[0];
      DiffKeysKeepRoot(a, b, keys[1..], here, ord);
      if k in a.fields { LiftKeepsRoot(k, Diff(a.fields[k], b.fields[k], here + [k], ord)); }
    }
  }

  lemma {:induction false} KeptIsPart(ops: seq<PatchOp>, all: bool)
    ensures forall op :: op in Kept(ops, all) <==> op in ops && (all || !op.Remove?)
  {
    if ops != [] {
      KeptIsPart(ops[1..], all);
      assert forall op :: op in ops <==> op == ops[0] || op in ops[1..];
    }
  }

  lemma DiffKeepsRoot(a: Json, b: Json, here: Path, ord: KeyOrder, all: bool)
    requires Orders(ord)
    ensures KeepsRoot(Kept(Diff(a, b, here, ord), all))
  {
    KeptIsPart(Diff(a, b, here, ord), all);
    if SameKind(a, b) && b.Obj? {
      DiffKeysKeepRoot(a, b, ord(false, here, b.fields.Keys), here, ord);
      RemovalsKeepRoot(ord(true, here, a.fields.Keys - b.fields.Keys));
    }
  }

  // `m` after the fields `keys` have been brought to the target.
  ghost function Updated(m: map<string, Json>, a: Json, b: Json, keys: seq<string>, all: bool): map<string, Json>
    requires a.Obj? && b.Obj? && forall k :: k in keys ==> k in b.fields
  {
    map x | x in m.Keys + Elements(keys) ::
      if x !in keys then m[x]
      else if x in a.fields then Outcome(a.fields[x], b.fields[x], all)
      else b.fields[x]
  }

  ghost predicate Agrees(m: map<string, Json>, a: Json, keys: seq<string>)
    requires a.Obj?
  {
    forall k :: k in keys ==> (k in m <==> k in a.fields) && (k in m ==> m[k] == a.fields[k])
  }

  lemma UpdatedStep(m: map<string, Json>, a: Json, b: Json, keys: seq<string>, all: bool)
    requires a.Obj? && b.Obj? && keys != [] && forall k :: k in keys ==> k in b.fields
    requires keys[0] !in keys[1..]
    ensures var k := keys[0];
            Updated(m, a, b, keys, all)
            == Updated(m[k := if k in a.fields then Outcome(a.fields[k], b.fields[k], all)
                else b.fields[k]], a, b, keys[1..], all)
  {
    assert forall x :: x in keys <==> x == keys[0] || x in keys[1..];
  }

  lemma {:induction false} DiffKeysApply(a: Json, b: Json, keys: seq<string>, here: Path, ord: KeyOrder, all: bool,
                                         m: map<string, Json>)
    requires Orders(ord) && a.Obj? && b.Obj? && forall k :: k in keys ==> k in b.fields
    requires forall i, j :: 0 <= i < j < |keys| ==> keys[i] != keys[j]
    requires Agrees(m, a, keys)
    ensures Apply(Kept(DiffKeys(a, b, keys, here, ord), all), Obj(m)) == Some(Obj(Updated(m, a, b, keys, all)))
    decreases b, |keys|
  {
    if keys == [] {
      assert Updated(m, a, b, keys, all) == m;
    } else {
      var k, rest := keys[0], keys[1..];
      assert k in keys && k !in rest;
      var ops := if k !in a.fields then [Add([k], b.fields[k])]
          else Lift(k, Diff(a.fields[k], b.fields[k], here + [k], ord));
      var more := DiffKeys(a, b, rest, here, ord);
      var v := if k in a.fields then Outcome(a.fields[k], b.fields[k], all) else b.fields[k];
      assert Apply(Kept(ops, all), Obj(m)) == Some(Obj(m[k := v])) by {
        if k in a.fields {
          var inner := Diff(a.fields[k], b.fields[k], here + [k], ord);
          KeptLifts(k, inner, all);
          DiffKeepsRoot(a.fields[k], b.fields[k], here + [k], ord, all);
          PatchGivesOutcome(a.fields[k], b.fields[k], here + [k], ord, all);
          ApplyLifted(k, Kept(inner, all), m);
        } else {
          assert Kept(ops[1..], all) == [] && Kept(ops, all) == ops && ops[1..] == [];
        }
      }
      DiffKeysApply(a, b, rest, here, ord, all, m[k := v]);
      KeptAppends(ops, more, all);
      ApplyAppends(Kept(ops, all), Kept(more, all), Obj(m));
      UpdatedStep(m, a, b, keys, all);
    }
  }

  lemma {:induction false} RemovalsApply(keys: seq<string>, m: map<string, Json>)
    requires forall k :: k in keys ==> k in m
    requires forall i, j :: 0 <= i < j < |keys| ==> keys[i] != keys[j]
    ensures Apply(Removals(keys), Obj(m)) == Some(Obj(m - Elements(keys)))
    decreases |keys|
  {
    if keys == [] {
      assert m - Elements(keys) == m;
    } else {
      assert Removals(keys)[0] == Remove([keys[0]]) && Removals(keys)[1..] == Removals(keys[1..]);
      assert forall k :: k in keys <==> k == keys[0] || k in keys[1..];
      RemovalsApply(keys[1..], m - {keys[0]});
      assert m - {keys[0]} - Elements(keys[1..]) == m - Elements(keys);
    }
  }

  lemma {:induction false} RemovalsKept(keys: seq<string>, all: bool)
    ensures Kept(Removals(keys), all) == if all then Removals(keys) else []
    decreases |keys|
  {
    if keys != [] {
      RemovalsKept(keys[1..], all);
      assert Removals(keys)[1..] == Removals(keys[1..]);
    }
  }

  // The whole patch turns the existing document into the target; the patch without its
  // removals turns it into the overlay of the target on it, whatever order keys came up in.
  lemma {:induction false} PatchGivesOutcome(a: Json, b: Json, here: Path, ord: KeyOrder, all: bool)
    requires Orders(ord)
    ensures Apply(Kept(Diff(a, b, here, ord), all), a) == Some(Outcome(a, b, all))
    decreases b
  {
    if SameKind(a, b) && b.Obj? {
      PatchGivesOutcomeOnObjects(a, b, here, ord, all);
    } else if SameKind(a, b) && a == b {
      assert Diff(a, b, here, ord) == [];
    } else {
      var ops := [Replace([], b)];
      assert ops[1..] == [] && Kept(ops[1..], all) == [] && Kept(ops, all) == ops;
      assert Apply(ops, a) == Some(b);
    }
  }

  lemma ThenRemovals(ops: seq<PatchOp>, gone: seq<string>, all: bool, j: Json, m: map<string, Json>)
    requires Apply(Kept(ops, all), j) == Some(Obj(m))
    requires forall k :: k in gone ==> k in m
    requires forall i, j :: 0 <= i < j < |gone| ==> gone[i] != gone[j]
    ensures Apply(Kept(ops + Removals(gone), all), j) == Some(Obj(if all then m - Elements(gone) else m))
  {
    KeptAppends(ops, Removals(gone), all);
    RemovalsKept(gone, all);
    if all {
      RemovalsApply(gone, m);
      ApplyAppends(Kept(ops, all), Removals(gone), j);
    } else {
      assert Kept(ops, all) + [] == Kept(ops, all);
    }
  }

  lemma UpdatedIsOutcome(a: Json, b: Json, keys: seq<string>, gone: seq<string>, all: bool)
    requires a.Obj? && b.Obj? && Enumerates(keys, b.fields.Keys) && Enumerates(gone, a.fields.Keys - b.fields.Keys)
    ensures var m := Updated(a.fields, a, b, keys, all);
            && (forall k :: k in gone ==> k in m)
            && Obj(if all then m - Elements(gone) else m) == Outcome(a, b, all)
  {
    var m := Updated(a.fields, a, b, keys, all);
    if all {
      assert (m - Elements(gone)).Keys == b.fields.Keys;
    } else {
      assert m.Keys == Overlay(a, b).fields.Keys;
    }
  }

  lemma {:induction false} PatchGivesOutcomeOnObjects(a: Json, b: Json, here: Path, ord: KeyOrder, all: bool)
    requires Orders(ord) && a.Obj? && b.Obj?
    ensures Apply(Kept(Diff(a, b, here, ord), all), a) == Some(Outcome(a, b, all))
    decreases b, |b.fields.Keys| + 1
  {
    var keys := ord(false, here, b.fields.Keys);
    var gone := ord(true, here, a.fields.Keys - b.fields.Keys);
    assert Enumerates(keys, b.fields.Keys) && Enumerates(gone, a.fields.Keys - b.fields.Keys);
    var ops, m := DiffKeys(a, b, keys, here, ord), Updated(a.fields, a, b, keys, all);
    assert Apply(Kept(ops, all), Obj(a.fields)) == Some(Obj(m)) by {
      EnumerationLength(keys, b.fields.Keys);
      DiffKeysApply(a, b, keys, here, ord, all, a.fields);
    }
    UpdatedIsOutcome(a, b, keys, gone, all);
    ThenRemovals(ops, gone, all, a, m);
    assert Diff(a, b, here, ord) == ops + Removals(gone);
  }

  /* ----- Once more against the same target ----- */

  lemma {:induction false} NothingKept(x: seq<PatchOp>, y: seq<PatchOp>)
    requires Kept(x, false) == [] && Kept(y, false) == []
    ensures Kept(x + y, false) == []
  {
    KeptAppends(x, y, false);
  }

  lemma {:induction false} DiffSelf(b: Json, here: Path, ord: KeyOrder)
    requires Orders(ord)
    ensures Diff(b, b, here, ord) == []
    decreases b
  {
    if b.Obj? {
      var keys := ord(false, here, b.fields.Keys);
      assert Enumerates(keys, b.fields.Keys)
          && Enumerates(ord(true, here, b.fields.Keys - b.fields.Keys), b.fields.Keys - b.fields.Keys);
      EnumerationLength(keys, b.fields.Keys);
      EnumerationLength(ord(true, here, b.fields.Keys - b.fields.Keys), b.fields.Keys - b.fields.Keys);
      DiffKeysSelf(b, keys, here, ord);
    }
  }

  lemma {:induction false} DiffKeysSelf(b: Json, keys: seq<string>, here: Path, ord: KeyOrder)
    requires Orders(ord) && b.Obj? && forall k :: k in keys ==> k in b.fields
    ensures DiffKeys(b, b, keys, here, ord) == []
    decreases b, |keys|
  {
    if keys != [] {
      assert keys[0] in keys;
      DiffSelf(b.fields[keys[0]], here + [keys[0]], ord);
      DiffKeysSelf(b, keys[1..], here, ord);
    }
  }

  // Against the overlay it produced, the same target yields removals only: repeating a patch
  // without removals changes nothing.
  lemma {:induction false} OverlayIsSettled(a: Json, b: Json, here: Path, ord: KeyOrder)
    requires Orders(ord)
    ensures Kept(Diff(Overlay(a, b), b, here, ord), false) == []
    decreases b
  {
    if a.Obj? && b.Obj? {
      var keys := ord(false, here, b.fields.Keys);
      assert Enumerates(keys, b.fields.Keys);
      EnumerationLength(keys, b.fields.Keys);
      var o := Overlay(a, b);
      OverlayKeysSettled(a, b, keys, here, ord);
      RemovalsKept(ord(true, here, o.fields.Keys - b.fields.Keys), false);
      NothingKept(DiffKeys(o, b, keys, here, ord), Removals(ord(true, here, o.fields.Keys - b.fields.Keys)));
    } else {
      DiffSelf(b, here, ord);
    }
  }

  lemma {:induction false} OverlayKeysSettled(a: Json, b: Json, keys: seq<string>, here: Path, ord: KeyOrder)
    requires Orders(ord) && a.Obj? && b.Obj? && forall k :: k in keys ==> k in b.fields
    ensures Kept(DiffKeys(Overlay(a, b), b, keys, here, ord), false) == []
    decreases b, |keys|
  {
    if keys != [] {
      var k, o := keys[0], Overlay(a, b);
      assert k in keys && k in o.fields;
      if k in a.fields {
        OverlayIsSettled(a.fields[k], b.fields[k], here + [k], ord);
      } else {
        DiffSelf(b.fields[k], here + [k], ord);
      }
      KeptLifts(k, Diff(o.fields[k], b.fields[k], here + [k], ord), false);
      OverlayKeysSettled(a, b, keys[1..], here, ord);
      NothingKept(Lift(k, Diff(o.fields[k], b.fields[k], here + [k], ord)), DiffKeys(o, b, keys[1..], here, ord));
    }
  }
}
