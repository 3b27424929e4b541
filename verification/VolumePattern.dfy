// The regular expression processVolume matches against, transcribed, with the textbook
// meaning of regular expressions; the scanner accepts exactly its language.
module VolumePattern {
  import opened Resources
  import opened VolumeGrammar

  datatype Re =
    | NotIn(stops: set<char>)     // [^...]
    | Lit(text: string)
    | Cat(first: Re, second: Re)
    | Alt(left: Re, right: Re)
    | Maybe(body: Re)             // (...)?
    | Star(body: Re)              // (...)*

  function Plus(r: Re): Re {
    Cat(r, Star(r))
  }

  ghost predicate Matches(r: Re, s: string)
    decreases r, |s|
  {
    match r
    case NotIn(stops) => |s| == 1 && s[0] !in stops
    case Lit(text) => s == text
    case Cat(a, b) => exists i :: 0 <= i <= |s| && Matches(a, s[..i]) && Matches(b, s[i..])
    case Alt(a, b) => Matches(a, s) || Matches(b, s)
    case Maybe(a) => s == "" || Matches(a, s)
    case Star(a) => s == "" || exists i :: 0 < i <= |s| && Matches(a, s[..i]) && Matches(r, s[i..])
  }

  const SCHEME := Cat(Alt(Lit("pvc"), Lit("nfs")), Lit("://"))
  const WORD := Plus(NotIn(STOPS))
  const OPT_WORD := Plus(NotIn(OPT_STOPS))
  const SUB := Cat(Lit("#"), Star(NotIn(STOPS)))
  const VALUE := Cat(Lit("="), OPT_WORD)
  const OPTION := Cat(OPT_WORD, Maybe(VALUE))
  const OPTIONS := Cat(OPTION, Star(Cat(Lit(","), OPTION)))
  const TAIL := Maybe(Cat(Lit(","), OPTIONS))
  const BODY := Cat(WORD, Cat(Lit(":"), Cat(WORD, Cat(Maybe(SUB), TAIL))))

  // ^(?:(pvc|nfs)(://))?([^:#,]+):([^:#,]+)(?:#([^:#,]*))?(?:,(opt(?:,opt)*))?$
  const PATTERN := Cat(Maybe(SCHEME), BODY)

  lemma CatIntro(a: Re, b: Re, x: string, y: string)
    requires Matches(a, x) && Matches(b, y)
    ensures Matches(Cat(a, b), x + y)
  {
    assert (x + y)[..|x|] == x && (x + y)[|x|..] == y;
  }

  lemma CatElim(a: Re, b: Re, s: string) returns (x: string, y: string)
    requires Matches(Cat(a, b), s)
    ensures s == x + y && Matches(a, x) && Matches(b, y)
  {
    var i :| 0 <= i <= |s| && Matches(a, s[..i]) && Matches(b, s[i..]);
    x, y := s[..i], s[i..];
  }

  lemma StarIntro(a: Re, x: string, y: string)
    requires x != "" && Matches(a, x) && Matches(Star(a), y)
    ensures Matches(Star(a), x + y)
  {
    assert (x + y)[..|x|] == x && (x + y)[|x|..] == y;
  }

  lemma StarElim(a: Re, s: string) returns (x: string, y: string)
    requires Matches(Star(a), s) && s != ""
    ensures s == x + y && x != "" && Matches(a, x) && Matches(Star(a), y)
  {
    var i :| 0 < i <= |s| && Matches(a, s[..i]) && Matches(Star(a), s[i..]);
    x, y := s[..i], s[i..];
  }

  lemma {:induction false} StarNotIn(stops: set<char>, s: string)
    ensures Matches(Star(NotIn(stops)), s) <==> Avoids(s, stops)
  {
    if s != "" {
      assert s == s[..1] + s[1..] && s[0] in s;
      StarNotIn(stops, s[1..]);
      if Avoids(s, stops) {
        assert Avoids(s[1..], stops);
        StarIntro(NotIn(stops), s[..1], s[1..]);
      }
      if Matches(Star(NotIn(stops)), s) {
        var x, y := StarElim(NotIn(stops), s);
        assert x == s[..1] && y == s[1..];
        assert forall c :: c in s ==> c == s[0] || c in s[1..];
      }
    }
  }

  lemma PlusNotIn(stops: set<char>, s: string)
    ensures Matches(Plus(NotIn(stops)), s) <==> s != "" && Avoids(s, stops)
  {
    if Matches(Plus(NotIn(stops)), s) {
      var x, y := CatElim(NotIn(stops), Star(NotIn(stops)), s);
      StarNotIn(stops, y);
      assert forall c :: c in s ==> c == x[0] || c in y;
    }
    if s != "" && Avoids(s, stops) {
      assert s == s[..1] + s[1..] && s[0] in s;
      assert Avoids(s[1..], stops);
      StarNotIn(stops, s[1..]);
      assert Matches(NotIn(stops), s[..1]);
      CatIntro(NotIn(stops), Star(NotIn(stops)), s[..1], s[1..]);
    }
  }

  /* ----- Whatever is printed from well-formed parts matches ----- */

  lemma OptionMatches(o: Opt)
    requires WellFormedOpt(o)
    ensures Matches(OPTION, PrintOpt(o))
  {
    PlusNotIn(OPT_STOPS, o.key);
    if o.value.Some? {
      PlusNotIn(OPT_STOPS, o.value.value);
      CatIntro(Lit("="), OPT_WORD, "=", o.value.value);
      CatIntro(OPT_WORD, Maybe(VALUE), o.key, "=" + o.value.value);
    } else {
      CatIntro(OPT_WORD, Maybe(VALUE), o.key, "");
    }
  }

  lemma TailShape(opts: seq<Opt>)
    requires opts != []
    ensures PrintTail(opts) == ("," + PrintOpt(opts[0])) + PrintTail(opts[1..])
  {
  }

  lemma {:induction false} MoreOptionsMatch(opts: seq<Opt>)
    requires WellFormedOpts(opts)
    ensures Matches(Star(Cat(Lit(","), OPTION)), PrintTail(opts))
  {
    if opts != [] {
      assert opts[0] in opts;
      OptionMatches(opts[0]);
      CatIntro(Lit(","), OPTION, ",", PrintOpt(opts[0]));
      MoreOptionsMatch(opts[1..]);
      StarIntro(Cat(Lit(","), OPTION), "," + PrintOpt(opts[0]), PrintTail(opts[1..]));
      TailShape(opts);
    }
  }

  lemma TailMatches(opts: seq<Opt>)
    requires WellFormedOpts(opts)
    ensures Matches(TAIL, PrintTail(opts))
  {
    if opts != [] {
      assert opts[0] in opts;
      OptionMatches(opts[0]);
      MoreOptionsMatch(opts[1..]);
      CatIntro(OPTION, Star(Cat(Lit(","), OPTION)), PrintOpt(opts[0]), PrintTail(opts[1..]));
      CatIntro(Lit(","), OPTIONS, ",", PrintOpts(opts));
    }
  }

  lemma SubMatches(sub: Option<string>)
    requires sub.Some? ==> Avoids(sub.value, STOPS)
    ensures Matches(Maybe(SUB), PrintSub(sub))
  {
    if sub.Some? {
      StarNotIn(STOPS, sub.value);
      CatIntro(Lit("#"), Star(NotIn(STOPS)), "#", sub.value);
    }
  }

  lemma BodyMatches(p: Parts)
    requires WellFormed(p)
    ensures Matches(BODY, PrintBody(p))
  {
    var end := PrintSub(p.sub) + PrintTail(p.opts);
    TailMatches(p.opts);
    SubMatches(p.sub);
    CatIntro(Maybe(SUB), TAIL, PrintSub(p.sub), PrintTail(p.opts));
    PlusNotIn(STOPS, p.mount);
    CatIntro(WORD, Cat(Maybe(SUB), TAIL), p.mount, end);
    CatIntro(Lit(":"), Cat(WORD, Cat(Maybe(SUB), TAIL)), ":", p.mount + end);
    PlusNotIn(STOPS, p.src);
    CatIntro(WORD, Cat(Lit(":"), Cat(WORD, Cat(Maybe(SUB), TAIL))), p.src, ":" + (p.mount + end));
    BodyShape(p);
  }

  lemma PrintedMatches(p: Parts)
    requires WellFormed(p)
    ensures Matches(PATTERN, Print(p))
  {
    BodyMatches(p);
    if p.scheme.Some? {
      var name := if p.scheme.value.Pvc? then "pvc" else "nfs";
      assert Matches(Alt(Lit("pvc"), Lit("nfs")), name);
      CatIntro(Alt(Lit("pvc"), Lit("nfs")), Lit("://"), name, "://");
      assert SchemePrefix(p.scheme.value) == name + "://";
      CatIntro(Maybe(SCHEME), BODY, SchemePrefix(p.scheme.value), PrintBody(p));
    } else {
      CatIntro(Maybe(SCHEME), BODY, "", PrintBody(p));
    }
  }

  /* ----- Whatever matches is printed from well-formed parts ----- */

  lemma MatchedOption(s: string) returns (o: Opt)
    requires Matches(OPTION, s)
    ensures WellFormedOpt(o) && PrintOpt(o) == s
  {
    var key, rest := CatElim(OPT_WORD, Maybe(VALUE), s);
    PlusNotIn(OPT_STOPS, key);
    if rest == "" {
      o := Opt(key, None);
    } else {
      var eq, value := CatElim(Lit("="), OPT_WORD, rest);
      PlusNotIn(OPT_STOPS, value);
      o := Opt(key, Some(value));
    }
  }

  lemma {:induction false} MatchedMore(s: string) returns (opts: seq<Opt>)
    requires Matches(Star(Cat(Lit(","), OPTION)), s)
    ensures WellFormedOpts(opts) && PrintTail(opts) == s
    decreases |s|
  {
    if s == "" {
      opts := [];
    } else {
      var head, rest := StarElim(Cat(Lit(","), OPTION), s);
      var comma, first := CatElim(Lit(","), OPTION, head);
      var o := MatchedOption(first);
      var more := MatchedMore(rest);
      opts := [o] + more;
      assert opts[0] == o && opts[1..] == more;
      TailShape(opts);
    }
  }

  lemma MatchedTail(s: string) returns (opts: seq<Opt>)
    requires Matches(TAIL, s)
    ensures WellFormedOpts(opts) && PrintTail(opts) == s
  {
    if s == "" {
      opts := [];
    } else {
      var comma, list := CatElim(Lit(","), OPTIONS, s);
      var first, rest := CatElim(OPTION, Star(Cat(Lit(","), OPTION)), list);
      var o := MatchedOption(first);
      var more := MatchedMore(rest);
      opts := [o] + more;
      assert opts[0] == o && opts[1..] == more;
    }
  }

  lemma MatchedSub(s: string) returns (sub: Option<string>)
    requires Matches(Maybe(SUB), s)
    ensures (sub.Some? ==> Avoids(sub.value, STOPS)) && PrintSub(sub) == s
  {
    if s == "" {
      sub := None;
    } else {
      var hash, text := CatElim(Lit("#"), Star(NotIn(STOPS)), s);
      StarNotIn(STOPS, text);
      sub := Some(text);
    }
  }

  lemma MatchedBody(scheme: Option<Scheme>, s: string) returns (p: Parts)
    requires Matches(BODY, s)
    ensures WellFormed(p) && p.scheme == scheme && PrintBody(p) == s
  {
    var src, s1 := CatElim(WORD, Cat(Lit(":"), Cat(WORD, Cat(Maybe(SUB), TAIL))), s);
    var colon, s2 := CatElim(Lit(":"), Cat(WORD, Cat(Maybe(SUB), TAIL)), s1);
    var mount, s3 := CatElim(WORD, Cat(Maybe(SUB), TAIL), s2);
    var s4, s5 := CatElim(Maybe(SUB), TAIL, s3);
    PlusNotIn(STOPS, src);
    PlusNotIn(STOPS, mount);
    var sub := MatchedSub(s4);
    var opts := MatchedTail(s5);
    p := Parts(scheme, src, mount, sub, opts);
    BodyShape(p);
  }

  lemma MatchedParts(s: string) returns (p: Parts)
    requires Matches(PATTERN, s)
    ensures WellFormed(p) && Print(p) == s
  {
    var prefix, body := CatElim(Maybe(SCHEME), BODY, s);
    if prefix == "" {
      p := MatchedBody(None, body);
      assert "" + body == body;
    } else {
      var name, sep := CatElim(Alt(Lit("pvc"), Lit("nfs")), Lit("://"), prefix);
      var scheme := if name == "pvc" then Pvc else Nfs;
      assert "pvc" + "://" == SchemePrefix(Pvc) && "nfs" + "://" == SchemePrefix(Nfs);
      assert Matches(Lit("pvc"), name) || Matches(Lit("nfs"), name);
      p := MatchedBody(Some(scheme), body);
    }
  }

  lemma ScannerAcceptsThePattern(s: string)
    ensures Scan(s).Some? <==> Matches(PATTERN, s)
  {
    if Scan(s).Some? {
      PrintScanned(s, Scan(s).value);
      PrintedMatches(Scan(s).value);
    }
    if Matches(PATTERN, s) {
      var p := MatchedParts(s);
      ScanPrinted(p);
    }
  }
}
