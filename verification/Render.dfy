// Rendering to a fixed point: a text is rendered as a template over and over, since the values
// it pulls in may themselves contain references, until a pass changes nothing.
module Render {
  import opened Resources

  datatype Token = Lit(c: char) | Ref(name: string)

  type Text = seq<Token>

  type Env = map<string, Text>

  predicate NoRefs(text: Text) {
    forall t :: t in text ==> t.Lit?
  }

  function Append(a: Option<Text>, b: Option<Text>): Option<Text> {
    if a.Some? && b.Some? then Some(a.value + b.value) else None
  }

  function Value(t: Token, env: Env): Option<Text> {
    match t
    case Lit(_) => Some([t])
    case Ref(name) => if name in env then Some(env[name]) else None
  }

  // One pass: every reference is replaced by its value, which is not looked at again. A
  // reference the environment lacks, such as one to a field that does not exist, is an error; a
  // missing key of a map is no such reference but one whose value is a fixed text.
  function ReRender(text: Text, env: Env): Option<Text> {
    if text == [] then Some([])
    else Append(Value(text[0], env), ReRender(text[1..], env))
  }

  /* ----- Acyclic references ----- */

  ghost predicate Below(text: Text, env: Env, rank: map<string, nat>, bound: nat) {
    forall q :: Ref(q) in text && q in env ==> q in rank && rank[q] < bound
  }

  // `rank` falls along every reference from one ranked name to another defined one.
  ghost predicate Ranked(env: Env, rank: map<string, nat>) {
    forall r :: r in rank ==> r in env && Below(env[r], env, rank, rank[r])
  }

  // The least bound a text is below: 0 if it has no defined reference.
  ghost function Height(text: Text, env: Env, rank: map<string, nat>): (h: nat)
    requires forall q :: Ref(q) in text && q in env ==> q in rank
    ensures Below(text, env, rank, h)
    ensures forall bound: nat :: Below(text, env, rank, bound) ==> h <= bound
  {
    if text == [] then 0
    else
      assert forall t :: t in text <==> t == text[0] || t in text[1..];
      var h := Height(text[1..], env, rank);
      if text[0].Ref? && text[0].name in env && h <= rank[text[0].name] then
        assert Ref(text[0].name) in text;
        rank[text[0].name] + 1
      else
        assert forall bound: nat :: Below(text, env, rank, bound) ==> Below(text[1..], env, rank, bound);
        h
  }

  ghost predicate Covered(text: Text, env: Env, rank: map<string, nat>) {
    forall q :: Ref(q) in text && q in env ==> q in rank
  }

  // The full expansion, by recursion into the values.
  ghost function Expand(text: Text, env: Env, rank: map<string, nat>): Option<Text>
    requires Ranked(env, rank) && Covered(text, env, rank)
    decreases Height(text, env, rank), |text|
  {
    if text == [] then Some([])
    else
      Append(if text[0].Lit? then Some([text[0]])
             else if text[0].name !in env then None
             else Expand(env[text[0].name], env, rank),
             Expand(text[1..], env, rank))
  }

  ghost function ExpandHead(text: Text, env: Env, rank: map<string, nat>): Option<Text>
    requires Ranked(env, rank) && Covered(text, env, rank) && text != []
  {
    assert text[0] in text;
    if text[0].Lit? then Some([text[0]])
    else if text[0].name !in env then None
    else Expand(env[text[0].name], env, rank)
  }

  lemma AppendNothing(a: Option<Text>)
    ensures Append(Some([]), a) == a && Append(a, Some([])) == a
  {
    if a.Some? {
      assert [] + a.value == a.value && a.value + [] == a.value;
    }
  }

  lemma AppendAssociates(a: Option<Text>, b: Option<Text>, c: Option<Text>)
    ensures Append(a, Append(b, c)) == Append(Append(a, b), c)
  {
    if a.Some? && b.Some? && c.Some? {
      assert a.value + (b.value + c.value) == a.value + b.value + c.value;
    }
  }

  lemma {:induction false} ExpandAppends(a: Text, b: Text, env: Env, rank: map<string, nat>)
    requires Ranked(env, rank) && Covered(a, env, rank) && Covered(b, env, rank)
    ensures Covered(a + b, env, rank)
    ensures Expand(a + b, env, rank) == Append(Expand(a, env, rank), Expand(b, env, rank))
  {
    if a == [] {
      assert a + b == b;
      AppendNothing(Expand(b, env, rank));
    } else {
      ExpandAppends(a[1..], b, env, rank);
      assert (a + b)[0] == a[0] && (a + b)[1..] == a[1..] + b;
      AppendAssociates(ExpandHead(a, env, rank), Expand(a[1..], env, rank), Expand(b, env, rank));
    }
  }

  lemma PassOverOne(t: Token, env: Env)
    ensures ReRender([t], env) == Value(t, env)
  {
    assert [t][1..] == [];
    AppendNothing(Value(t, env));
  }

  // A pass does not change the expansion, and lowers the height unless it is 0 already.
  lemma {:induction false} PassKeepsExpansion(text: Text, env: Env, rank: map<string, nat>)
    requires Ranked(env, rank) && Covered(text, env, rank)
    ensures ReRender(text, env).None? ==> Expand(text, env, rank).None?
    ensures ReRender(text, env).Some? ==>
              && Covered(ReRender(text, env).value, env, rank)
              && Expand(ReRender(text, env).value, env, rank) == Expand(text, env, rank)
  {
    if text != [] {
      PassKeepsExpansion(text[1..], env, rank);
      var head, rest := Value(text[0], env), ReRender(text[1..], env);
      if head.Some? && rest.Some? {
        ExpandAppends(head.value, rest.value, env, rank);
        if text[0].Lit? {
          assert [text[0]][1..] == [];
          assert [text[0]] + [] == [text[0]];
        }
      }
    }
  }

  lemma {:induction false} PassLowers(text: Text, env: Env, rank: map<string, nat>, bound: nat)
    requires Ranked(env, rank) && Below(text, env, rank, bound) && ReRender(text, env).Some?
    ensures Below(ReRender(text, env).value, env, rank, if bound == 0 then 0 else bound - 1)
    ensures bound == 0 ==> NoRefs(text)
  {
    if text != [] {
      assert text[0] in text && forall t :: t in text <==> t == text[0] || t in text[1..];
      PassLowers(text[1..], env, rank, bound);
      if text[0].Ref? {
        assert Below(env[text[0].name], env, rank, rank[text[0].name]);
      }
    }
  }

  lemma {:induction false} NoRefsIsFixed(text: Text, env: Env)
    requires NoRefs(text)
    ensures ReRender(text, env) == Some(text)
  {
    if text != [] {
      assert text[0] in text;
      NoRefsIsFixed(text[1..], env);
      assert text == [text[0]] + text[1..];
    }
  }

  lemma {:induction false} ExpandedHasNoRefs(text: Text, env: Env, rank: map<string, nat>)
    requires Ranked(env, rank) && Covered(text, env, rank) && Expand(text, env, rank).Some?
    ensures NoRefs(Expand(text, env, rank).value)
    decreases Height(text, env, rank), |text|
  {
    if text != [] {
      ExpandedHasNoRefs(text[1..], env, rank);
      if text[0].Ref? { ExpandedHasNoRefs(env[text[0].name], env, rank); }
    }
  }

  lemma {:induction false} ExpandOfNoRefs(text: Text, env: Env, rank: map<string, nat>)
    requires Ranked(env, rank) && NoRefs(text)
    ensures Covered(text, env, rank) && Expand(text, env, rank) == Some(text)
  {
    if text != [] {
      assert text[0] in text;
      ExpandOfNoRefs(text[1..], env, rank);
      assert text == [text[0]] + text[1..];
    }
  }

  /* ----- The loop ----- */

  function Iterate(text: Text, env: Env, n: nat): Option<Text>
    decreases n
  {
    if n == 0 then Some(text)
    else
      var next := ReRender(text, env);
      if next.None? then None else Iterate(next.value, env, n - 1)
  }

  // Pass n + 1, if it comes to that, fails or changes nothing.
  ghost predicate Stops(text: Text, env: Env, n: nat) {
    Iterate(text, env, n + 1).None? || Iterate(text, env, n + 1) == Iterate(text, env, n)
  }

  lemma {:induction false} IterateSnoc(text: Text, env: Env, n: nat)
    ensures Iterate(text, env, n + 1)
            == if Iterate(text, env, n).None? then None else ReRender(Iterate(text, env, n).value, env)
    decreases n
  {
    if n > 0 && ReRender(text, env).Some? {
      IterateSnoc(ReRender(text, env).value, env, n - 1);
    }
  }

  // The loop of an object's rendering, for every text and environment on which it ends at all.
  // A failed pass fails it; otherwise what it returns is a text that no pass changes.
  method RenderObject(initial: Text, env: Env, ghost bound: nat) returns (r: Option<Text>, ghost passes: nat)
    requires Stops(initial, env, bound)
    ensures passes <= bound + 1 && r == Iterate(initial, env, passes)
    ensures r.Some? ==> ReRender(r.value, env) == r
  {
    var current, previous := initial, initial;
    passes := 0;
    while true
      invariant passes <= bound && Iterate(initial, env, passes) == Some(previous)
      decreases bound - passes
    {
      var next := ReRender(previous, env);
      IterateSnoc(initial, env, passes);
      passes := passes + 1;
      if next.None? {
        return None, passes;
      }
      current := next.value;
      if current == previous {
        break;
      }
      previous := current;
    }
    r := Some(current);
  }

  lemma {:induction false} FixedStays(text: Text, env: Env, m: nat, n: nat)
    requires m <= n && (Iterate(text, env, m).None?
        || ReRender(Iterate(text, env, m).value, env) == Iterate(text, env, m))
    ensures Iterate(text, env, n) == Iterate(text, env, m)
    decreases n - m
  {
    if m < n {
      FixedStays(text, env, m, n - 1);
      IterateSnoc(text, env, n - 1);
    }
  }

  lemma {:induction false} PassesExpand(text: Text, env: Env, rank: map<string, nat>, bound: nat)
    requires Ranked(env, rank) && Covered(text, env, rank) && Below(text, env, rank, bound)
    ensures Stops(text, env, bound) && Iterate(text, env, bound + 1) == Expand(text, env, rank)
    decreases bound
  {
    PassKeepsExpansion(text, env, rank);
    if ReRender(text, env).Some? {
      PassLowers(text, env, rank, bound);
      if bound == 0 {
        NoRefsIsFixed(text, env);
        ExpandOfNoRefs(text, env, rank);
      } else {
        PassesExpand(ReRender(text, env).value, env, rank, bound - 1);
      }
    }
  }

  // When the references are acyclic the loop ends within the height of the initial text, and
  // one pass more. It fails if the full expansion meets an undefined reference, and otherwise
  // returns the full expansion, which has no references left.
  lemma AcyclicSettles(text: Text, env: Env, rank: map<string, nat>)
    requires Ranked(env, rank) && Covered(text, env, rank)
    ensures Stops(text, env, Height(text, env, rank))
    ensures forall m: nat ::
              Iterate(text, env, m).None? || ReRender(Iterate(text, env, m).value, env) == Iterate(text, env, m) ==>
                Iterate(text, env, m) == Expand(text, env, rank)
    ensures Expand(text, env, rank).Some? ==> NoRefs(Expand(text, env, rank).value)
  {
    var h := Height(text, env, rank);
    PassesExpand(text, env, rank, h);
    if Expand(text, env, rank).Some? {
      ExpandedHasNoRefs(text, env, rank);
      NoRefsIsFixed(Expand(text, env, rank).value, env);
    }
    forall m: nat | Iterate(text, env, m).None? || ReRender(Iterate(text, env, m).value, env) == Iterate(text, env, m)
      ensures Iterate(text, env, m) == Expand(text, env, rank)
    {
      var last := if m < h + 1 then h + 1 else m;
      FixedStays(text, env, m, last);
      FixedStays(text, env, h + 1, last);
    }
  }

  /* ----- When iterated passes lead to a text without references ----- */

  ghost predicate Clean(text: Text, env: Env, n: nat) {
    Iterate(text, env, n).Some? && NoRefs(Iterate(text, env, n).value)
  }

  // A ranking under which every reference, from the text on, is to a ranked name.
  ghost predicate Acyclic(text: Text, env: Env, rank: map<string, nat>) {
    && Ranked(env, rank)
    && (forall q :: Ref(q) in text ==> q in rank)
    && (forall r, q :: r in rank && Ref(q) in env[r] ==> q in rank)
  }

  lemma {:induction false} ReRenderDefined(text: Text, env: Env)
    requires forall q :: Ref(q) in text ==> q in env
    ensures ReRender(text, env).Some?
  {
    if text != [] {
      assert text[0] in text;
      ReRenderDefined(text[1..], env);
    }
  }

  lemma {:induction false} ReRenderFrom(text: Text, env: Env, q: string)
    requires ReRender(text, env).Some? && Ref(q) in ReRender(text, env).value
    ensures exists r :: Ref(r) in text && r in env && Ref(q) in env[r]
  {
    if text != [] {
      if Ref(q) in ReRender(text[1..], env).value {
        ReRenderFrom(text[1..], env, q);
        var r :| Ref(r) in text[1..] && r in env && Ref(q) in env[r];
        assert Ref(r) in text;
      } else {
        assert text[0] in text;
        assert Ref(text[0].name) in text;
      }
    }
  }

  lemma {:induction false} AcyclicGetsClean(text: Text, env: Env, rank: map<string, nat>, n: nat)
    requires Acyclic(text, env, rank) && Below(text, env, rank, n)
    ensures Clean(text, env, n)
    decreases n
  {
    if n > 0 {
      ReRenderDefined(text, env);
      var next := ReRender(text, env).value;
      forall q | Ref(q) in next ensures q in rank { ReRenderFrom(text, env, q); }
      PassLowers(text, env, rank, n);
      AcyclicGetsClean(next, env, rank, n - 1);
    } else {
      ReRenderDefined(text, env);
      PassLowers(text, env, rank, 0);
    }
  }

  lemma {:induction false} ReRenderAppends(a: Text, b: Text, env: Env)
    ensures ReRender(a + b, env) == Append(ReRender(a, env), ReRender(b, env))
  {
    if a == [] {
      assert a + b == b;
      AppendNothing(ReRender(b, env));
    } else {
      ReRenderAppends(a[1..], b, env);
      assert (a + b)[0] == a[0] && (a + b)[1..] == a[1..] + b;
      AppendAssociates(Value(a[0], env), ReRender(a[1..], env), ReRender(b, env));
    }
  }

  lemma {:induction false} CleanSplits(a: Text, b: Text, env: Env, n: nat)
    ensures Clean(a + b, env, n) <==> Clean(a, env, n) && Clean(b, env, n)
    decreases n
  {
    if n == 0 {
      assert forall t :: t in a + b <==> t in a || t in b;
    } else {
      ReRenderAppends(a, b, env);
      if ReRender(a, env).Some? && ReRender(b, env).Some? {
        CleanSplits(ReRender(a, env).value, ReRender(b, env).value, env, n - 1);
      }
    }
  }

  lemma CleanRef(r: string, env: Env, n: nat)
    ensures Clean([Ref(r)], env, n) <==> n > 0 && r in env && Clean(env[r], env, n - 1)
  {
    PassOverOne(Ref(r), env);
    assert Ref(r) in [Ref(r)];
  }

  lemma {:induction false} CleanTokens(text: Text, env: Env, n: nat, q: string)
    requires Clean(text, env, n) && Ref(q) in text
    ensures Clean([Ref(q)], env, n)
  {
    assert text == [text[0]] + text[1..];
    CleanSplits([text[0]], text[1..], env, n);
    if text[0] != Ref(q) { CleanTokens(text[1..], env, n, q); }
  }

  // The first of the passes 0..n after which the text is clean.
  ghost function FirstClean(text: Text, env: Env, n: nat): (m: nat)
    requires Clean(text, env, n)
    ensures m <= n && Clean(text, env, m)
    ensures forall k :: 0 <= k < m ==> !Clean(text, env, k)
  {
    if exists k :: 0 <= k < n && Clean(text, env, k)
    then FirstClean(text, env, var k :| 0 <= k < n && Clean(text, env, k); k)
    else n
  }

  lemma {:induction false} CleanStays(text: Text, env: Env, m: nat, n: nat)
    requires Clean(text, env, m) && m <= n
    ensures Clean(text, env, n)
    decreases n
  {
    if m == 0 && n > 0 {
      NoRefsIsFixed(text, env);
      CleanStays(text, env, 0, n - 1);
    } else if m > 0 {
      CleanStays(ReRender(text, env).value, env, m - 1, n - 1);
    }
  }

  lemma CleanRankFalls(r: string, q: string, env: Env, n: nat)
    requires r in env && Clean([Ref(r)], env, n) && Ref(q) in env[r]
    ensures q in env && Clean([Ref(q)], env, n)
    ensures FirstClean([Ref(q)], env, n) < FirstClean([Ref(r)], env, n)
  {
    var m := FirstClean([Ref(r)], env, n);
    CleanRef(r, env, m);
    CleanTokens(env[r], env, m - 1, q);
    CleanRef(q, env, m - 1);
    CleanStays([Ref(q)], env, m - 1, n);
  }

  lemma RankOfClean(text: Text, env: Env, n: nat) returns (rank: map<string, nat>)
    requires Clean(text, env, n)
    ensures Acyclic(text, env, rank)
  {
    rank := map r | r in env && Clean([Ref(r)], env, n) :: FirstClean([Ref(r)], env, n);
    forall q | Ref(q) in text ensures q in rank {
      CleanTokens(text, env, n, q);
      CleanRef(q, env, n);
    }
    forall r, q | r in rank && Ref(q) in env[r] ensures q in rank && rank[q] < rank[r] {
      CleanRankFalls(r, q, env, n);
    }
  }

  // Iterated passes end in a text without references exactly if the references reachable from
  // the text are acyclic and all defined.
  lemma CleanIffAcyclic(text: Text, env: Env)
    ensures (exists n :: Clean(text, env, n)) <==> (exists rank :: Acyclic(text, env, rank))
  {
    if rank :| Acyclic(text, env, rank) {
      AcyclicGetsClean(text, env, rank, Height(text, env, rank));
    }
    if n :| Clean(text, env, n) {
      var rank := RankOfClean(text, env, n);
    }
  }
}
