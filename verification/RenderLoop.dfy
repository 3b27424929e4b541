// When the loop that renders a text over and over comes to an end: exactly if some pass meets an
// undefined reference, or every cycle of references is a name that is its own value but for
// what vanishes.
module RenderLoop {
  import opened Resources
  import opened Render

  /* ----- Passes over parts of a text ----- */

  lemma {:induction false} IterateAppends(a: Text, b: Text, env: Env, n: nat)
    ensures Iterate(a + b, env, n) == Append(Iterate(a, env, n), Iterate(b, env, n))
    decreases n
  {
    if n > 0 {
      ReRenderAppends(a, b, env);
      if ReRender(a, env).Some? && ReRender(b, env).Some? {
        IterateAppends(ReRender(a, env).value, ReRender(b, env).value, env, n - 1);
      }
    }
  }

  lemma {:induction false} IterateNothing(env: Env, n: nat)
    ensures Iterate([], env, n) == Some([])
    decreases n
  {
    if n > 0 { IterateNothing(env, n - 1); }
  }

  lemma IterateRef(q: string, env: Env, n: nat)
    requires n > 0
    ensures Iterate([Ref(q)], env, n) == if q in env then Iterate(env[q], env, n - 1) else None
  {
    PassOverOne(Ref(q), env);
  }

  lemma {:induction false} IterateLit(c: char, env: Env, n: nat)
    ensures Iterate([Lit(c)], env, n) == Some([Lit(c)])
    decreases n
  {
    PassOverOne(Lit(c), env);
    if n > 0 { IterateLit(c, env, n - 1); }
  }

  // `m` passes, then `n`.
  lemma {:induction false} IterateAdds(text: Text, env: Env, m: nat, n: nat)
    ensures Iterate(text, env, m + n)
            == if Iterate(text, env, m).None? then None else Iterate(Iterate(text, env, m).value, env, n)
    decreases m
  {
    if m > 0 && ReRender(text, env).Some? {
      IterateAdds(ReRender(text, env).value, env, m - 1, n);
    }
  }

  // What the passes make of a token of the text is part of what they make of the text.
  lemma TokenInside(text: Text, env: Env, t: Token, n: nat)
    requires t in text && Iterate(text, env, n).Some?
    ensures Iterate([t], env, n).Some?
    ensures forall x :: x in Iterate([t], env, n).value ==> x in Iterate(text, env, n).value
  {
    var i :| 0 <= i < |text| && text[i] == t;
    assert text == (text[..i] + [t]) + text[i + 1..];
    IterateAppends(text[..i] + [t], text[i + 1..], env, n);
    IterateAppends(text[..i], [t], env, n);
  }

  /* ----- Texts that settle ----- */

  // No pass from the n-th on fails or changes anything.
  ghost predicate SettledAt(text: Text, env: Env, n: nat) {
    Iterate(text, env, n).Some? && Iterate(text, env, n + 1) == Iterate(text, env, n)
  }

  ghost predicate Settles(text: Text, env: Env) {
    exists n :: SettledAt(text, env, n)
  }

  lemma SettledStays(text: Text, env: Env, m: nat, n: nat)
    requires SettledAt(text, env, m) && m <= n
    ensures SettledAt(text, env, n) && Iterate(text, env, n) == Iterate(text, env, m)
  {
    IterateSnoc(text, env, m);
    FixedStays(text, env, m, n);
    FixedStays(text, env, m, n + 1);
  }

  lemma ReRenderKeepsPrefix(a: Text, b: Text, env: Env)
    requires a <= b && ReRender(b, env).Some?
    ensures ReRender(a, env).Some? && ReRender(a, env).value <= ReRender(b, env).value
  {
    assert b == a + b[|a|..];
    ReRenderAppends(a, b[|a|..], env);
  }

  // A prefix of a text that has settled into `w` grows with every pass, or shrinks with every
  // pass, between nothing and `w`; so it settles too.
  lemma {:induction false} PrefixClimbs(a: Text, env: Env, w: Text, n: nat) returns (m: nat)
    requires ReRender(w, env) == Some(w)
    requires Iterate(a, env, n).Some? && Iterate(a, env, n).value <= w
    requires Iterate(a, env, n + 1).Some? && Iterate(a, env, n).value <= Iterate(a, env, n + 1).value
    ensures SettledAt(a, env, m) && m >= n
    decreases |w| - |Iterate(a, env, n).value|
  {
    var x, y := Iterate(a, env, n).value, Iterate(a, env, n + 1).value;
    IterateSnoc(a, env, n);
    ReRenderKeepsPrefix(x, w, env);
    if x == y {
      m := n;
    } else {
      IterateSnoc(a, env, n + 1);
      ReRenderKeepsPrefix(y, w, env);
      ReRenderKeepsPrefix(x, y, env);
      m := PrefixClimbs(a, env, w, n + 1);
    }
  }

  lemma {:induction false} PrefixFalls(a: Text, env: Env, w: Text, n: nat) returns (m: nat)
    requires ReRender(w, env) == Some(w)
    requires Iterate(a, env, n).Some? && Iterate(a, env, n).value <= w
    requires Iterate(a, env, n + 1).Some? && Iterate(a, env, n + 1).value <= Iterate(a, env, n).value
    ensures SettledAt(a, env, m) && m >= n
    decreases |Iterate(a, env, n).value|
  {
    var x, y := Iterate(a, env, n).value, Iterate(a, env, n + 1).value;
    if x == y {
      m := n;
    } else {
      IterateSnoc(a, env, n);
      IterateSnoc(a, env, n + 1);
      ReRenderKeepsPrefix(y, w, env);
      ReRenderKeepsPrefix(y, x, env);
      m := PrefixFalls(a, env, w, n + 1);
    }
  }

  lemma SettledIsFixed(text: Text, env: Env, n: nat)
    requires SettledAt(text, env, n)
    ensures ReRender(Iterate(text, env, n).value, env) == Iterate(text, env, n)
  {
    IterateSnoc(text, env, n);
  }

  lemma PrefixSettles(a: Text, b: Text, env: Env, n: nat) returns (m: nat)
    requires SettledAt(a + b, env, n)
    ensures m >= n && SettledAt(a, env, m)
  {
    var w := Iterate(a + b, env, n).value;
    SettledIsFixed(a + b, env, n);
    IterateAppends(a, b, env, n);
    IterateAppends(a, b, env, n + 1);
    var x, y := Iterate(a, env, n).value, Iterate(a, env, n + 1).value;
    assert x <= w && y <= w;
    if |x| <= |y| {
      assert x <= y;
      m := PrefixClimbs(a, env, w, n);
    } else {
      assert y <= x;
      m := PrefixFalls(a, env, w, n);
    }
  }

  lemma SuffixSettles(a: Text, b: Text, env: Env, n: nat)
    requires SettledAt(a + b, env, n) && SettledAt(a, env, n)
    ensures SettledAt(b, env, n)
  {
    IterateAppends(a, b, env, n);
    IterateAppends(a, b, env, n + 1);
    var x, y, z := Iterate(a, env, n).value, Iterate(b, env, n).value, Iterate(b, env, n + 1).value;
    assert (x + y)[|x|..] == y && (x + z)[|x|..] == z;
  }

  // A text settles exactly if both of its parts do.
  lemma PartsSettle(a: Text, b: Text, env: Env)
    ensures Settles(a + b, env) <==> Settles(a, env) && Settles(b, env)
  {
    if n: nat :| SettledAt(a + b, env, n) {
      var m := PrefixSettles(a, b, env, n);
      SettledStays(a + b, env, n, m);
      SuffixSettles(a, b, env, m);
    }
    if Settles(a, env) && Settles(b, env) {
      var i: nat :| SettledAt(a, env, i);
      var j: nat :| SettledAt(b, env, j);
      var n := if i < j then j else i;
      SettledStays(a, env, i, n);
      SettledStays(b, env, j, n);
      IterateAppends(a, b, env, n);
      IterateAppends(a, b, env, n + 1);
      assert SettledAt(a + b, env, n);
    }
  }

  lemma TokenSettles(text: Text, env: Env, t: Token)
    requires Settles(text, env) && t in text
    ensures Settles([t], env)
  {
    var i :| 0 <= i < |text| && text[i] == t;
    assert text == (text[..i] + [t]) + text[i + 1..];
    PartsSettle(text[..i] + [t], text[i + 1..], env);
    PartsSettle(text[..i], [t], env);
  }

  lemma RefSettlesIff(q: string, env: Env)
    ensures Settles([Ref(q)], env) <==> q in env && Settles(env[q], env)
  {
    if n: nat :| SettledAt([Ref(q)], env, n) {
      SettledStays([Ref(q)], env, n, n + 1);
      IterateRef(q, env, n + 1);
      IterateRef(q, env, n + 2);
      assert SettledAt(env[q], env, n);
    }
    if q in env && Settles(env[q], env) {
      var n: nat :| SettledAt(env[q], env, n);
      IterateRef(q, env, n + 1);
      IterateRef(q, env, n + 2);
      assert SettledAt([Ref(q)], env, n + 1);
    }
  }

  /* ----- Texts that vanish ----- */

  // Nothing but references to names whose values vanish in turn.
  ghost predicate Vanishes(text: Text, env: Env, n: nat)
    decreases n
  {
    forall t :: t in text ==> t.Ref? && t.name in env && n > 0 && Vanishes(env[t.name], env, n - 1)
  }

  lemma {:induction false} VanishesIff(text: Text, env: Env, n: nat)
    ensures Vanishes(text, env, n) <==> Iterate(text, env, n) == Some([])
    decreases n, |text|
  {
    if text == [] {
      IterateNothing(env, n);
    } else {
      var t, rest := text[0], text[1..];
      assert text == [t] + rest;
      IterateAppends([t], rest, env, n);
      VanishesIff(rest, env, n);
      assert Vanishes(text, env, n) <==> Vanishes([t], env, n) && Vanishes(rest, env, n);
      TokenVanishesIff(t, env, n);
      if Iterate([t], env, n).Some? && Iterate(rest, env, n).Some? {
        assert |Iterate(text, env, n).value| == |Iterate([t], env, n).value| + |Iterate(rest, env, n).value|;
      }
    }
  }

  lemma {:induction false} TokenVanishesIff(t: Token, env: Env, n: nat)
    ensures Vanishes([t], env, n) <==> Iterate([t], env, n) == Some([])
    decreases n, 0
  {
    assert t in [t];
    match t
    case Lit(c) => IterateLit(c, env, n);
    case Ref(q) =>
      if n > 0 {
        IterateRef(q, env, n);
        if q in env { VanishesIff(env[q], env, n - 1); }
      }
  }

  lemma {:induction false} VanishesLater(text: Text, env: Env, m: nat, n: nat)
    requires Vanishes(text, env, m) && m <= n
    ensures Vanishes(text, env, n)
    decreases n
  {
    forall t | t in text ensures t.Ref? && t.name in env && n > 0 && Vanishes(env[t.name], env, n - 1) {
      VanishesLater(env[t.name], env, m - 1, n - 1);
    }
  }

  /* ----- The shape of references under which a text settles ----- */

  ghost predicate VanishesAround(text: Text, env: Env, d: nat, n: nat)
    requires d < |text|
  {
    Vanishes(text[..d], env, n) && Vanishes(text[d + 1..], env, n)
  }

  // The value of the name is a reference to the name itself, and otherwise vanishes.
  ghost predicate OwnValue(q: string, env: Env) {
    q in env && exists d, n :: 0 <= d < |env[q]| && env[q][d] == Ref(q) && VanishesAround(env[q], env, d, n)
  }

  // All references are defined, and following them leads within `n` of them to a text without
  // any, or to a name that is its own value.
  ghost predicate Grounded(text: Text, env: Env, n: nat)
    decreases n
  {
    forall q :: Ref(q) in text ==> q in env && n > 0 && (OwnValue(q, env) || Grounded(env[q], env, n - 1))
  }

  lemma VanishingIsDefined(text: Text, env: Env, m: nat, n: nat)
    requires Vanishes(text, env, m)
    ensures Iterate(text, env, n).Some?
  {
    var last := if m < n then n else m;
    VanishesLater(text, env, m, last);
    VanishesIff(text, env, last);
    IterateAdds(text, env, n, last - n);
  }

  lemma IterateAround(before: Text, q: string, after: Text, env: Env, n: nat)
    ensures Iterate((before + [Ref(q)]) + after, env, n)
            == Append(Append(Iterate(before, env, n), Iterate([Ref(q)], env, n)), Iterate(after, env, n))
  {
    IterateAppends(before + [Ref(q)], after, env, n);
    IterateAppends(before, [Ref(q)], env, n);
  }

  lemma OwnValueParts(q: string, env: Env) returns (before: Text, after: Text, n: nat)
    requires OwnValue(q, env)
    ensures env[q] == (before + [Ref(q)]) + after && Vanishes(before, env, n) && Vanishes(after, env, n)
  {
    var d: nat, m: nat :| d < |env[q]| && env[q][d] == Ref(q) && VanishesAround(env[q], env, d, m);
    before, after, n := env[q][..d], env[q][d + 1..], m;
  }

  lemma {:induction false} OwnValueDefined(q: string, env: Env, n: nat)
    requires OwnValue(q, env)
    ensures Iterate([Ref(q)], env, n).Some?
    decreases n
  {
    if n > 0 {
      var before, after, m := OwnValueParts(q, env);
      IterateRef(q, env, n);
      IterateAround(before, q, after, env, n - 1);
      VanishingIsDefined(before, env, m, n - 1);
      VanishingIsDefined(after, env, m, n - 1);
      OwnValueDefined(q, env, n - 1);
    }
  }

  lemma OwnValueSettles(q: string, env: Env)
    requires OwnValue(q, env)
    ensures Settles([Ref(q)], env)
  {
    var before, after, n := OwnValueParts(q, env);
    VanishesIff(before, env, n);
    VanishesIff(after, env, n);
    IterateRef(q, env, n + 1);
    IterateAround(before, q, after, env, n);
    OwnValueDefined(q, env, n);
    AppendNothing(Iterate([Ref(q)], env, n));
    assert SettledAt([Ref(q)], env, n);
  }

  lemma {:induction false} GroundedSettles(text: Text, env: Env, n: nat)
    requires Grounded(text, env, n)
    ensures Settles(text, env)
    decreases n, |text|
  {
    if text == [] {
      IterateNothing(env, 0);
      IterateNothing(env, 1);
      assert SettledAt(text, env, 0);
    } else {
      var t, rest := text[0], text[1..];
      assert text == [t] + rest;
      GroundedSettles(rest, env, n);
      match t {
        case Lit(c) =>
          IterateLit(c, env, 0);
          IterateLit(c, env, 1);
          assert SettledAt([t], env, 0);
        case Ref(q) =>
          assert Ref(q) in text;
          if OwnValue(q, env) {
            OwnValueSettles(q, env);
          } else {
            GroundedSettles(env[q], env, n - 1);
            RefSettlesIff(q, env);
          }
      }
      PartsSettle([t], rest, env);
    }
  }

  /* ----- A cycle of references in a text that settles ----- */

  lemma SettlingIsDefined(text: Text, env: Env, n: nat)
    requires Settles(text, env)
    ensures Iterate(text, env, n).Some?
  {
    var m: nat :| SettledAt(text, env, m);
    if n < m {
      IterateAdds(text, env, n, m - n);
    } else {
      SettledStays(text, env, m, n);
    }
  }

  lemma {:induction false} ComesBack(q: string, env: Env, p: nat, k: nat)
    requires Iterate([Ref(q)], env, p).Some? && Ref(q) in Iterate([Ref(q)], env, p).value
    requires Settles([Ref(q)], env)
    ensures Iterate([Ref(q)], env, k * p).Some? && Ref(q) in Iterate([Ref(q)], env, k * p).value
    decreases k
  {
    if k > 0 {
      ComesBack(q, env, p, k - 1);
      IterateAdds([Ref(q)], env, p, (k - 1) * p);
      assert p + (k - 1) * p == k * p;
      SettlingIsDefined([Ref(q)], env, k * p);
      TokenInside(Iterate([Ref(q)], env, p).value, env, Ref(q), (k - 1) * p);
    } else {
      assert Ref(q) in [Ref(q)];
    }
  }

  lemma Multiple(k: nat, p: nat)
    requires p > 0
    ensures k * p >= k
  {
  }

  // What a name that comes back to itself settles into is the name and what vanishes.
  lemma SettlesAround(q: string, env: Env, p: nat) returns (w: Text, i: nat, n: nat)
    requires p > 0 && Settles([Ref(q)], env)
    requires Iterate([Ref(q)], env, p).Some? && Ref(q) in Iterate([Ref(q)], env, p).value
    ensures ReRender(w, env) == Some(w) && i < |w| && w[i] == Ref(q) && VanishesAround(w, env, i, n)
    ensures forall j :: j >= n ==> Iterate([Ref(q)], env, j) == Some(w)
  {
    n :| SettledAt([Ref(q)], env, n);
    var k := (n + 1) * p;
    assert k >= n by { Multiple(n + 1, p); }
    ComesBack(q, env, p, n + 1);
    SettledStays([Ref(q)], env, n, k);
    w := Iterate([Ref(q)], env, k).value;
    SettledIsFixed([Ref(q)], env, k);
    i :| 0 <= i < |w| && w[i] == Ref(q);
    forall j | j >= n ensures Iterate([Ref(q)], env, j) == Some(w) { SettledStays([Ref(q)], env, n, j); }
    IterateAdds([Ref(q)], env, k, n);
    var before, after := w[..i], w[i + 1..];
    assert w == (before + [Ref(q)]) + after;
    IterateAround(before, q, after, env, n);
    var x, y := Iterate(before, env, n).value, Iterate(after, env, n).value;
    assert w == (x + w) + y;
    assert |w| == |x| + |w| + |y|;
    VanishesIff(before, env, n);
    VanishesIff(after, env, n);
  }

  lemma NotInVanishing(q: string, env: Env, w: Text, text: Text, n: nat)
    requires forall j :: j >= n ==> Iterate([Ref(q)], env, j) == Some(w)
    requires w != [] && Vanishes(text, env, n)
    ensures Ref(q) !in text
  {
    VanishesIff(text, env, n);
    assert w[0] in w;
    if Ref(q) in text {
      TokenInside(text, env, Ref(q), n);
    }
  }

  ghost predicate Within(part: Text, text: Text) {
    forall t :: t in part ==> t in text
  }

  lemma PassVanishes(text: Text, env: Env, n: nat)
    requires Vanishes(text, env, n)
    ensures ReRender(text, env).Some? && Vanishes(ReRender(text, env).value, env, n)
  {
    VanishesLater(text, env, n, n + 1);
    VanishesIff(text, env, n + 1);
    VanishesIff(ReRender(text, env).value, env, n);
  }

  // A name on a cycle has its own place in its value ...
  lemma PlaceInValue(w: Text, i: nat, q: string, x: Text, value: Text, y: Text) returns (d: nat)
    requires w == (x + value) + y && i < |w| && w[i] == Ref(q)
    requires Ref(q) !in x && Ref(q) !in y
    ensures d < |value| && value[d] == Ref(q)
    ensures Within(value[..d], w[..i]) && Within(value[d + 1..], w[i + 1..])
  {
    assert forall j :: 0 <= j < |x| ==> w[j] == x[j];
    assert forall j :: |w| - |y| <= j < |w| ==> w[j] == y[j - (|w| - |y|)];
    d := i - |x|;
    assert w == x + (value + y);
    assert w[..i] == x + value[..d];
    assert w[i + 1..] == value[d + 1..] + y;
  }

  // ... and is its own value.
  lemma CycleIsOwnValue(q: string, env: Env, p: nat)
    requires p > 0 && Settles([Ref(q)], env)
    requires Iterate([Ref(q)], env, p).Some? && Ref(q) in Iterate([Ref(q)], env, p).value
    ensures OwnValue(q, env)
  {
    RefSettlesIff(q, env);
    var w, i, n := SettlesAround(q, env, p);
    var before, after := w[..i], w[i + 1..];
    assert w == (before + [Ref(q)]) + after;
    PassVanishes(before, env, n);
    PassVanishes(after, env, n);
    var x, y := ReRender(before, env).value, ReRender(after, env).value;
    ReRenderAppends(before + [Ref(q)], after, env);
    ReRenderAppends(before, [Ref(q)], env);
    PassOverOne(Ref(q), env);
    NotInVanishing(q, env, w, x, n);
    NotInVanishing(q, env, w, y, n);
    var d := PlaceInValue(w, i, q, x, env[q], y);
    assert VanishesAround(env[q], env, d, n);
  }

  /* ----- A text that settles is grounded ----- */

  // A path of references, none of which is to a name that is its own value.
  ghost predicate IsPath(path: seq<string>, env: Env) {
    && (forall i :: 0 <= i < |path| ==> path[i] in env && !OwnValue(path[i], env) && Settles([Ref(path[i])], env))
    && (forall i :: 0 <= i < |path| - 1 ==> Ref(path[i + 1]) in env[path[i]])
  }

  lemma {:induction false} UngroundedPath(text: Text, env: Env, n: nat) returns (path: seq<string>)
    requires Settles(text, env) && !Grounded(text, env, n)
    ensures |path| == n && IsPath(path, env) && (n > 0 ==> Ref(path[0]) in text)
    decreases n
  {
    var q :| Ref(q) in text && !(q in env && n > 0 && (OwnValue(q, env) || Grounded(env[q], env, n - 1)));
    TokenSettles(text, env, Ref(q));
    RefSettlesIff(q, env);
    if n == 0 {
      path := [];
    } else {
      var rest := UngroundedPath(env[q], env, n - 1);
      path := [q] + rest;
    }
  }

  lemma {:induction false} PathIsFollowed(path: seq<string>, env: Env, i: nat, j: nat)
    requires IsPath(path, env) && i <= j < |path|
    ensures Iterate([Ref(path[i])], env, j - i).Some?
    ensures Ref(path[j]) in Iterate([Ref(path[i])], env, j - i).value
    decreases j - i
  {
    SettlingIsDefined([Ref(path[i])], env, j - i);
    if i < j {
      PathIsFollowed(path, env, i + 1, j);
      IterateRef(path[i], env, j - i);
      TokenInside(env[path[i]], env, Ref(path[i + 1]), j - i - 1);
    } else {
      assert Ref(path[i]) in [Ref(path[i])];
    }
  }

  lemma {:induction false} Repeats<T(!new)>(path: seq<T>, s: set<T>) returns (i: nat, j: nat)
    requires (forall x :: x in path ==> x in s) && |path| > |s|
    ensures i < j < |path| && path[i] == path[j]
    decreases |path|
  {
    var n := |path| - 1;
    var last := path[n];
    assert last in path;
    if last in path[..n] {
      i :| 0 <= i < n && path[..n][i] == last;
      j := n;
    } else {
      forall x | x in path[..n] ensures x in s - {last} { assert x in path; }
      assert |s - {last}| == |s| - 1;
      i, j := Repeats(path[..n], s - {last});
    }
  }

  lemma SettlesGrounded(text: Text, env: Env)
    requires Settles(text, env)
    ensures Grounded(text, env, |env.Keys| + 1)
  {
    if !Grounded(text, env, |env.Keys| + 1) {
      var path := UngroundedPath(text, env, |env.Keys| + 1);
      var i, j := Repeats(path, env.Keys);
      PathIsFollowed(path, env, i, j);
      CycleIsOwnValue(path[i], env, j - i);
    }
  }

  // A text settles exactly if following its references, one for each name at most, leads to
  // texts without any or to names that are their own value.
  lemma SettlesIffGrounded(text: Text, env: Env)
    ensures Settles(text, env) <==> Grounded(text, env, |env.Keys| + 1)
  {
    if Settles(text, env) { SettlesGrounded(text, env); }
    if Grounded(text, env, |env.Keys| + 1) { GroundedSettles(text, env, |env.Keys| + 1); }
  }

  /* ----- Undefined references ----- */

  // Following `n` references from the text leads to one that is undefined.
  ghost predicate Dangles(text: Text, env: Env, n: nat)
    decreases n
  {
    exists q :: Ref(q) in text && if n == 0 then q !in env else q in env && Dangles(env[q], env, n - 1)
  }

  // It takes no more references than there are names.
  ghost predicate HasDangling(text: Text, env: Env) {
    exists n :: 0 <= n <= |env.Keys| && Dangles(text, env, n)
  }

  // The names on the way to an undefined reference.
  ghost predicate IsWay(way: seq<string>, text: Text, env: Env, n: nat) {
    && |way| <= n
    && (way != [] ==> Ref(way[0]) in text)
    && (forall i :: 0 <= i < |way| ==> way[i] in env && Dangles(env[way[i]], env, n - 1 - i))
    && (forall i :: 0 <= i < |way| - 1 ==> Ref(way[i + 1]) in env[way[i]])
  }

  lemma {:induction false} WayToDangling(text: Text, env: Env, n: nat) returns (way: seq<string>)
    requires Dangles(text, env, n)
    ensures |way| == n && IsWay(way, text, env, n)
    decreases n
  {
    if n == 0 {
      way := [];
    } else {
      var q :| Ref(q) in text && q in env && Dangles(env[q], env, n - 1);
      var rest := WayToDangling(env[q], env, n - 1);
      way := [q] + rest;
    }
  }

  lemma {:induction false} Shortcut(way: seq<string>, text: Text, env: Env, n: nat, i: nat, k: nat)
    requires IsWay(way, text, env, n) && i < |way| && Dangles(env[way[i]], env, k)
    ensures Dangles(text, env, i + 1 + k)
    decreases i
  {
    if i > 0 {
      assert way[1..][i - 1] == way[i];
      Shortcut(way[1..], env[way[0]], env, n - 1, i - 1, k);
    }
    assert Ref(way[0]) in text;
  }

  lemma {:induction false} DanglesSoon(text: Text, env: Env, n: nat)
    requires Dangles(text, env, n)
    ensures HasDangling(text, env)
    decreases n
  {
    if n > |env.Keys| {
      var way := WayToDangling(text, env, n);
      var i, j := Repeats(way, env.Keys);
      Shortcut(way, text, env, n, i, n - 1 - j);
      DanglesSoon(text, env, i + 1 + (n - 1 - j));
    }
  }

  lemma {:induction false} DanglingFails(text: Text, env: Env, n: nat)
    requires Dangles(text, env, n)
    ensures Iterate(text, env, n + 1).None?
    decreases n
  {
    var q :| Ref(q) in text && if n == 0 then q !in env else q in env && Dangles(env[q], env, n - 1);
    IterateRef(q, env, n + 1);
    if n > 0 { DanglingFails(env[q], env, n - 1); }
    if Iterate(text, env, n + 1).Some? { TokenInside(text, env, Ref(q), n + 1); }
  }

  lemma {:induction false} FailingDangles(text: Text, env: Env, n: nat) returns (m: nat)
    requires Iterate(text, env, n).None?
    ensures Dangles(text, env, m)
    decreases n, |text|
  {
    assert n > 0 && text != [] by { if text == [] { IterateNothing(env, n); } }
    var t, rest := text[0], text[1..];
    assert text == [t] + rest && t in text;
    IterateAppends([t], rest, env, n);
    if Iterate(rest, env, n).None? {
      m := FailingDangles(rest, env, n);
      var q :| Ref(q) in rest && if m == 0 then q !in env else q in env && Dangles(env[q], env, m - 1);
      assert Ref(q) in text;
    } else {
      match t
      case Lit(c) => IterateLit(c, env, n);
      case Ref(q) =>
        IterateRef(q, env, n);
        if q in env {
          m := FailingDangles(env[q], env, n - 1);
          m := m + 1;
          assert Ref(q) in text && Dangles(env[q], env, m - 1);
        } else {
          m := 0;
          assert Ref(q) in text && q !in env;
        }
    }
  }

  /* ----- When the loop ends ----- */

  ghost predicate Ends(text: Text, env: Env) {
    exists n :: Stops(text, env, n)
  }

  lemma EndedText(text: Text, env: Env)
    requires Ends(text, env)
    ensures HasDangling(text, env) || Settles(text, env)
  {
    var n: nat :| Stops(text, env, n);
    if Iterate(text, env, n + 1).None? {
      var m := FailingDangles(text, env, n + 1);
      DanglesSoon(text, env, m);
    } else {
      IterateSnoc(text, env, n);
      assert SettledAt(text, env, n);
    }
  }

  // The loop ends exactly if following references, at most one for each name, leads to an
  // undefined one, and then it fails, or if the text is grounded, and then it settles.
  lemma LoopEndsIff(text: Text, env: Env)
    ensures Ends(text, env) <==> HasDangling(text, env) || Grounded(text, env, |env.Keys| + 1)
  {
    SettlesIffGrounded(text, env);
    if Ends(text, env) {
      EndedText(text, env);
    }
    if HasDangling(text, env) {
      var n: nat :| Dangles(text, env, n);
      DanglingFails(text, env, n);
      assert Stops(text, env, n);
    }
    if Settles(text, env) {
      var n: nat :| SettledAt(text, env, n);
      assert Stops(text, env, n);
    }
  }

  lemma OwnValueHasNoLiteral(a: string, env: Env, c: char)
    requires OwnValue(a, env)
    ensures Lit(c) !in env[a]
  {
    var before, after, n := OwnValueParts(a, env);
    assert Lit(c) !in before && Lit(c) !in after;
  }

  // A name whose value refers to the name and adds something that is neither a reference to it
  // nor vanishes keeps the loop going for ever in every text that refers to it, unless some
  // pass fails.
  lemma GrowingNameNeverEnds(text: Text, env: Env, a: string, c: char)
    requires Ref(a) in text && a in env && Ref(a) in env[a] && Lit(c) in env[a]
    requires !HasDangling(text, env)
    ensures !Ends(text, env)
  {
    if Ends(text, env) {
      LoopEndsIff(text, env);
      SettlesIffGrounded(text, env);
      TokenSettles(text, env, Ref(a));
      IterateRef(a, env, 1);
      CycleIsOwnValue(a, env, 1);
      OwnValueHasNoLiteral(a, env, c);
    }
  }

  lemma {:induction false} CycleNeverVanishes(text: Text, env: Env, a: string, b: string, n: nat)
    requires Ref(a) in text && a in env && b in env && Ref(b) in env[a] && Ref(a) in env[b]
    ensures !Vanishes(text, env, n)
    decreases n
  {
    if n > 0 { CycleNeverVanishes(env[a], env, b, a, n - 1); }
  }

  lemma TwoCycleIsNotOwn(env: Env, a: string, b: string)
    requires a != b && a in env && b in env && Ref(b) in env[a] && Ref(a) in env[b]
    ensures !OwnValue(a, env)
  {
    if OwnValue(a, env) {
      var before, after, n := OwnValueParts(a, env);
      if Ref(b) in before { CycleNeverVanishes(before, env, b, a, n); }
      if Ref(b) in after { CycleNeverVanishes(after, env, b, a, n); }
    }
  }

  // So do two names that refer to each other, whatever else their values hold.
  lemma TwoCycleNeverEnds(text: Text, env: Env, a: string, b: string)
    requires Ref(a) in text && a != b && a in env && b in env && Ref(b) in env[a] && Ref(a) in env[b]
    requires !HasDangling(text, env)
    ensures !Ends(text, env)
  {
    if Ends(text, env) {
      LoopEndsIff(text, env);
      SettlesIffGrounded(text, env);
      TokenSettles(text, env, Ref(a));
      SettlingIsDefined([Ref(a)], env, 2);
      IterateRef(a, env, 2);
      TokenInside(env[a], env, Ref(b), 1);
      IterateRef(b, env, 1);
      CycleIsOwnValue(a, env, 2);
      TwoCycleIsNotOwn(env, a, b);
    }
  }

  // A name whose value is a reference to itself stops the loop at once, unexpanded.
  lemma SelfReferenceSettles(env: Env, a: string)
    requires a in env && env[a] == [Ref(a)]
    ensures Stops([Ref(a)], env, 0) && Iterate([Ref(a)], env, 1) == Some([Ref(a)]) && !NoRefs([Ref(a)])
  {
    IterateRef(a, env, 1);
    assert Ref(a) in [Ref(a)];
  }
}
