// References inside the options of a volume string: how a text is read as one with references,
// and an accepted string on which rendering the claim never ends.
module ClaimText {
  import opened Resources
  import opened VolumeGrammar
  import opened VolumeParser
  import opened Render
  import opened RenderLoop

  const OPEN := "{{ "

  const CLOSE := " }}"

  // The first token and what follows: a reference is a name without spaces between an opening
  // and a closing, everything else stands for itself.
  function Head(s: string): (r: (Token, string))
    requires s != ""
    ensures |r.1| < |s|
  {
    var (name, rest) := Break(if OPEN <= s then s[3..] else "", {' '});
    if OPEN <= s && CLOSE <= rest then (Ref(name), rest[3..]) else (Lit(s[0]), s[1..])
  }

  function Tokenize(s: string): Text
    decreases |s|
  {
    if s == "" then [] else [Head(s).0] + Tokenize(Head(s).1)
  }

  function SpellToken(t: Token): string {
    match t
    case Lit(c) => [c]
    case Ref(name) => OPEN + (name + CLOSE)
  }

  function Spell(text: Text): string {
    if text == [] then "" else SpellToken(text[0]) + Spell(text[1..])
  }

  lemma HeadSpelled(s: string)
    requires s != ""
    ensures SpellToken(Head(s).0) + Head(s).1 == s
  {
    var (name, rest) := Break(if OPEN <= s then s[3..] else "", {' '});
    if OPEN <= s && CLOSE <= rest {
      Regroup(OPEN, name, CLOSE, rest[3..]);
      assert rest == CLOSE + rest[3..];
      assert s == OPEN + s[3..];
    }
  }

  // Reading a text as one with references loses nothing of it.
  lemma {:induction false} SpellTokenized(s: string)
    ensures Spell(Tokenize(s)) == s
    decreases |s|
  {
    if s != "" {
      var (t, rest) := Head(s);
      SpellTokenized(rest);
      HeadSpelled(s);
    }
  }

  lemma TokenizeReference(name: string, rest: string)
    requires ' ' !in name
    ensures Tokenize(OPEN + (name + (CLOSE + rest))) == [Ref(name)] + Tokenize(rest)
  {
    var s := OPEN + (name + (CLOSE + rest));
    assert s[3..] == name + (CLOSE + rest);
    BreakPrinted(name, CLOSE + rest, {' '});
    assert (CLOSE + rest)[3..] == rest;
    assert Head(s) == (Ref(name), rest);
  }

  /* ----- A volume string that keeps the controller rendering for ever ----- */

  const SIZE := ".volume.Attr.size"


  // {{ .volume.Attr.size }}x
  const GROWING := OPEN + (SIZE + (CLOSE + "x"))

  // What an attribute of the volume is for the passes: the value as a text with references.
  ghost predicate HoldsSize(env: Env, v: Volume) {
    "size" in v.attr && SIZE in env && env[SIZE] == Tokenize(v.attr["size"])
  }

  lemma GrowingTokens()
    ensures Tokenize(GROWING) == [Ref(SIZE), Lit('x')]
  {
    TokenizeReference(SIZE, "x");
  }

  lemma GrowingIsPlain()
    ensures GROWING != "" && Avoids(GROWING, OPT_STOPS)
  {
    assert |GROWING| >= |OPEN|;
  }

  // The string is accepted; and whatever else the claim's text and the environment hold, a text
  // that quotes the volume's size is rendered without end, unless some reference is undefined.
  lemma GrowingSizeNeverEnds(id: string, env: Env, text: Text)
    requires Parse(id, "c:/m,size=" + GROWING).Ok? ==> HoldsSize(env, Parse(id, "c:/m,size=" + GROWING).value.0)
    requires Ref(SIZE) in text && !HasDangling(text, env)
    ensures Parse(id, "c:/m,size=" + GROWING).Ok?
    ensures !Ends(text, env)
  {
    GrowingTokens();
    GrowingIsPlain();
    ParseOneSize(id, GROWING);
    assert Ref(SIZE) in env[SIZE] && Lit('x') in env[SIZE];
    GrowingNameNeverEnds(text, env, SIZE, 'x');
  }

  lemma {:induction false} DefinedNeverDangles(text: Text, env: Env, n: nat)
    requires forall q :: Ref(q) in text ==> q in env
    requires forall r, q :: r in env && Ref(q) in env[r] ==> q in env
    ensures !Dangles(text, env, n)
    decreases n
  {
    if n > 0 {
      forall q | Ref(q) in text ensures !Dangles(env[q], env, n - 1) {
        DefinedNeverDangles(env[q], env, n - 1);
      }
    }
  }

  lemma NothingDangles(text: Text, env: Env)
    requires forall q :: Ref(q) in text ==> q in env
    requires forall r, q :: r in env && Ref(q) in env[r] ==> q in env
    ensures !HasDangling(text, env)
  {
    forall n: nat ensures !Dangles(text, env, n) { DefinedNeverDangles(text, env, n); }
  }

  // Such a text is there: the storage request alone, in an environment of nothing but the size.
  lemma GrowingSizeExample(id: string)
    ensures var s := "c:/m,size=" + GROWING;
            && Parse(id, s).Ok? && "size" in Parse(id, s).value.0.attr
            && var size := Tokenize(Parse(id, s).value.0.attr["size"]);
               !Ends(size, map[SIZE := size])
  {
    GrowingTokens();
    GrowingIsPlain();
    ParseOneSize(id, GROWING);
    var size := Tokenize(GROWING);
    var env := map[SIZE := size];
    assert size[0] == Ref(SIZE) && Ref(SIZE) in size;
    NothingDangles(size, env);
    GrowingSizeNeverEnds(id, env, size);
  }
}
