// The volume string grammar
//
//   [scheme "://"] src ":" mount ["#" subpath] ["," option {"," option}]
//
// as a printed form of its parts, and a scanner that recovers the parts.
module VolumeGrammar {
  import opened Resources

  datatype Scheme = Pvc | Nfs

  datatype Opt = Opt(key: string, value: Option<string>)

  datatype Parts = Parts(scheme: Option<Scheme>, src: string, mount: string, sub: Option<string>, opts: seq<Opt>)

  /* ----- The grammar ----- */

  const STOPS := {':', '#', ','}

  const OPT_STOPS := {':', '#', ',', '='}

  predicate Avoids(s: string, stops: set<char>) {
    forall c :: c in s ==> c !in stops
  }

  predicate WellFormedOpt(o: Opt) {
    && o.key != "" && Avoids(o.key, OPT_STOPS)
    && (o.value.Some? ==> o.value.value != "" && Avoids(o.value.value, OPT_STOPS))
  }

  predicate WellFormedOpts(opts: seq<Opt>) {
    forall o :: o in opts ==> WellFormedOpt(o)
  }

  predicate WellFormed(p: Parts) {
    && p.src != "" && Avoids(p.src, STOPS)
    && p.mount != "" && Avoids(p.mount, STOPS)
    && (p.sub.Some? ==> Avoids(p.sub.value, STOPS))
    && WellFormedOpts(p.opts)
  }

  function SchemePrefix(scheme: Scheme): string {
    if scheme.Pvc? then "pvc://" else "nfs://"
  }

  function PrintOpt(o: Opt): string {
    o.key + if o.value.Some? then "=" + o.value.value else ""
  }

  function PrintOpts(opts: seq<Opt>): string
    decreases |opts|, 0
  {
    if opts == [] then "" else PrintOpt(opts[0]) + PrintTail(opts[1..])
  }

  function PrintTail(opts: seq<Opt>): string
    decreases |opts|, 1
  {
    if opts == [] then "" else "," + PrintOpts(opts)
  }

  function PrintSub(sub: Option<string>): string {
    if sub.Some? then "#" + sub.value else ""
  }

  function PrintBody(p: Parts): string {
    p.src + ":" + p.mount + PrintSub(p.sub) + PrintTail(p.opts)
  }

  function Print(p: Parts): string {
    (if p.scheme.Some? then SchemePrefix(p.scheme.value) else "") + PrintBody(p)
  }

  /* ----- The scanner ----- */

  // Splits `s` in front of the first of `stops`.
  function Break(s: string, stops: set<char>): (r: (string, string))
    ensures s == r.0 + r.1 && Avoids(r.0, stops)
    ensures r.1 == "" || r.1[0] in stops
  {
    if s == "" || s[0] in stops then ("", s)
    else
      var (head, rest) := Break(s[1..], stops);
      ([s[0]] + head, rest)
  }

  function ScanOpts(s: string): Option<seq<Opt>>
    decreases |s|
  {
    var (key, rest) := Break(s, OPT_STOPS);
    if key == "" then None
    else if rest != "" && rest[0] == '=' then
      var (value, more) := Break(rest[1..], OPT_STOPS);
      if value == "" then None else ScanMoreOpts(Opt(key, Some(value)), more)
    else ScanMoreOpts(Opt(key, None), rest)
  }

  function ScanMoreOpts(o: Opt, s: string): Option<seq<Opt>>
    decreases |s|
  {
    if s == "" then Some([o])
    else if s[0] == ',' then
      var more := ScanOpts(s[1..]);
      if more.None? then None else Some([o] + more.value)
    else None
  }

  function ScanTail(s: string): Option<seq<Opt>> {
    if s == "" then Some([])
    else if s[0] == ',' then ScanOpts(s[1..])
    else None
  }

  function ScanSub(s: string): (Option<string>, string) {
    if s != "" && s[0] == '#' then
      var (sub, tail) := Break(s[1..], STOPS);
      (Some(sub), tail)
    else (None, s)
  }

  function ScanMount(scheme: Option<Scheme>, src: string, s: string): Option<Parts> {
    var (mount, rest) := Break(s, STOPS);
    if mount == "" then None
    else
      var (sub, tail) := ScanSub(rest);
      var opts := ScanTail(tail);
      if opts.None? then None else Some(Parts(scheme, src, mount, sub, opts.value))
  }

  function ScanBody(scheme: Option<Scheme>, s: string): Option<Parts> {
    var (src, rest) := Break(s, STOPS);
    if src == "" || rest == "" || rest[0] != ':' then None
    else ScanMount(scheme, src, rest[1..])
  }

  function SchemeOf(s: string): Option<Scheme> {
    if SchemePrefix(Pvc) <= s then Some(Pvc)
    else if SchemePrefix(Nfs) <= s then Some(Nfs)
    else None
  }

  // The optional scheme is taken when the rest of the string allows it.
  function Scan(s: string): Option<Parts> {
    var scheme := SchemeOf(s);
    if scheme.Some? && ScanBody(scheme, s[6..]).Some? then ScanBody(scheme, s[6..])
    else ScanBody(None, s)
  }

  /* ----- What is printed is scanned back ----- */

  lemma {:induction false} BreakPrinted(a: string, b: string, stops: set<char>)
    requires Avoids(a, stops) && (b == "" || b[0] in stops)
    ensures Break(a + b, stops) == (a, b)
  {
    if a == "" {
      assert a + b == b;
    } else {
      assert (a + b)[1..] == a[1..] + b;
      assert a[0] in a && a == [a[0]] + a[1..];
      BreakPrinted(a[1..], b, stops);
    }
  }

  lemma Regroup(a: string, b: string, c: string, d: string)
    ensures (a + (b + c)) + d == a + (b + (c + d))
  {
  }

  lemma ScanPrintedOpt(o: Opt, more: string)
    requires WellFormedOpt(o) && (more == "" || more[0] in OPT_STOPS - {'='})
    ensures ScanOpts(PrintOpt(o) + more) == ScanMoreOpts(o, more)
  {
    if o.value.Some? {
      var rest := "=" + (o.value.value + more);
      Regroup(o.key, "=", o.value.value, more);
      assert rest[0] == '=' && rest[1..] == o.value.value + more;
      BreakPrinted(o.key, rest, OPT_STOPS);
      BreakPrinted(o.value.value, more, OPT_STOPS);
    } else {
      assert PrintOpt(o) == o.key;
      BreakPrinted(o.key, more, OPT_STOPS);
    }
  }

  lemma {:induction false} ScanPrintedOpts(opts: seq<Opt>)
    requires opts != [] && WellFormedOpts(opts)
    ensures ScanOpts(PrintOpts(opts)) == Some(opts)
    decreases |opts|, 1
  {
    assert opts[0] in opts;
    ScanPrintedMore(opts[0], opts);
    ScanPrintedOpt(opts[0], PrintTail(opts[1..]));
  }

  lemma {:induction false} ScanPrintedMore(o: Opt, opts: seq<Opt>)
    requires opts != [] && opts[0] == o && WellFormedOpts(opts)
    ensures ScanMoreOpts(o, PrintTail(opts[1..])) == Some(opts)
    decreases |opts|, 0
  {
    if |opts| == 1 {
      assert opts == [o];
    } else {
      var rest := opts[1..];
      assert ("," + PrintOpts(rest))[1..] == PrintOpts(rest);
      ScanPrintedOpts(rest);
      assert opts == [o] + rest;
    }
  }

  lemma ScanPrintedTail(opts: seq<Opt>)
    requires WellFormedOpts(opts)
    ensures ScanTail(PrintTail(opts)) == Some(opts)
  {
    if opts != [] {
      ScanPrintedOpts(opts);
      assert PrintTail(opts)[1..] == PrintOpts(opts);
    }
  }

  lemma ScanPrintedSub(sub: Option<string>, tail: string)
    requires sub.Some? ==> Avoids(sub.value, STOPS)
    requires tail == "" || tail[0] == ','
    ensures ScanSub(PrintSub(sub) + tail) == (sub, tail)
  {
    if sub.Some? {
      assert (PrintSub(sub) + tail)[1..] == sub.value + tail;
      BreakPrinted(sub.value, tail, STOPS);
    } else {
      assert PrintSub(sub) + tail == tail;
    }
  }

  lemma ScanPrintedMount(p: Parts)
    requires WellFormed(p)
    ensures ScanMount(p.scheme, p.src, p.mount + (PrintSub(p.sub) + PrintTail(p.opts))) == Some(p)
  {
    BreakPrinted(p.mount, PrintSub(p.sub) + PrintTail(p.opts), STOPS);
    ScanPrintedSub(p.sub, PrintTail(p.opts));
    ScanPrintedTail(p.opts);
  }

  lemma BodyShape(p: Parts)
    ensures PrintBody(p) == p.src + (":" + (p.mount + (PrintSub(p.sub) + PrintTail(p.opts))))
  {
    assert p.mount + (PrintSub(p.sub) + PrintTail(p.opts)) == p.mount + PrintSub(p.sub) + PrintTail(p.opts);
  }

  lemma ScanPrintedBody(p: Parts)
    requires WellFormed(p)
    ensures ScanBody(p.scheme, PrintBody(p)) == Some(p)
  {
    var rest := p.mount + (PrintSub(p.sub) + PrintTail(p.opts));
    BodyShape(p);
    BreakPrinted(p.src, ":" + rest, STOPS);
    assert (":" + rest)[1..] == rest;
    ScanPrintedMount(p);
  }

  /* ----- What is scanned prints back ----- */

  lemma {:induction false} PrintScannedOpts(s: string, opts: seq<Opt>)
    requires ScanOpts(s) == Some(opts)
    ensures opts != [] && WellFormedOpts(opts) && PrintOpts(opts) == s
    decreases |s|
  {
    var (key, rest) := Break(s, OPT_STOPS);
    if rest != "" && rest[0] == '=' {
      var (value, more) := Break(rest[1..], OPT_STOPS);
      assert rest == "=" + (value + more);
      assert |more| < |s|;
      PrintScannedMore(Opt(key, Some(value)), more, opts);
      Regroup(key, "=", value, more);
    } else {
      PrintScannedMore(Opt(key, None), rest, opts);
      assert key + "" == key;
    }
  }

  lemma {:induction false} PrintScannedMore(o: Opt, s: string, opts: seq<Opt>)
    requires WellFormedOpt(o) && ScanMoreOpts(o, s) == Some(opts)
    ensures opts != [] && WellFormedOpts(opts) && PrintOpts(opts) == PrintOpt(o) + s
    decreases |s|
  {
    if s == "" {
      assert PrintOpt(o) + s == PrintOpt(o);
    } else {
      var more := ScanOpts(s[1..]).value;
      PrintScannedOpts(s[1..], more);
      assert opts == [o] + more && opts[1..] == more;
      assert s == "," + s[1..];
    }
  }

  lemma PrintScannedTail(s: string, opts: seq<Opt>)
    requires ScanTail(s) == Some(opts)
    ensures WellFormedOpts(opts) && PrintTail(opts) == s
  {
    if s != "" {
      PrintScannedOpts(s[1..], opts);
      assert s == "," + s[1..];
    }
  }

  lemma PrintScannedSub(s: string)
    ensures var (sub, tail) := ScanSub(s);
            (sub.Some? ==> Avoids(sub.value, STOPS)) && PrintSub(sub) + tail == s
  {
    if s != "" && s[0] == '#' {
      var (sub, tail) := Break(s[1..], STOPS);
      assert s == "#" + (sub + tail) == ("#" + sub) + tail;
    } else {
      assert "" + s == s;
    }
  }

  lemma PrintScannedMount(scheme: Option<Scheme>, src: string, s: string, p: Parts)
    requires src != "" && Avoids(src, STOPS)
    requires ScanMount(scheme, src, s) == Some(p)
    ensures WellFormed(p) && p.scheme == scheme && p.src == src
    ensures s == p.mount + (PrintSub(p.sub) + PrintTail(p.opts))
  {
    var (mount, rest) := Break(s, STOPS);
    var (sub, tail) := ScanSub(rest);
    PrintScannedSub(rest);
    PrintScannedTail(tail, p.opts);
  }

  lemma PrintScannedBody(scheme: Option<Scheme>, s: string, p: Parts)
    requires ScanBody(scheme, s) == Some(p)
    ensures WellFormed(p) && p.scheme == scheme && PrintBody(p) == s
  {
    var (src, rest) := Break(s, STOPS);
    PrintScannedMount(scheme, src, rest[1..], p);
    assert rest == ":" + rest[1..];
    BodyShape(p);
  }

  /* ----- The scheme is settled by the number of colons ----- */

  function Colons(s: string): nat {
    if s == "" then 0 else (if s[0] == ':' then 1 else 0) + Colons(s[1..])
  }

  lemma {:induction false} ColonsAppend(a: string, b: string)
    ensures Colons(a + b) == Colons(a) + Colons(b)
  {
    if a == "" {
      assert a + b == b;
    } else {
      assert (a + b)[1..] == a[1..] + b;
      ColonsAppend(a[1..], b);
    }
  }

  lemma {:induction false} NoColons(s: string)
    ensures ':' !in s <==> Colons(s) == 0
  {
    if s != "" {
      assert forall c :: c in s <==> c == s[0] || c in s[1..];
      NoColons(s[1..]);
    }
  }

  lemma {:induction false} NoColonsInOpts(opts: seq<Opt>)
    requires WellFormedOpts(opts)
    ensures ':' !in PrintOpts(opts)
  {
    if opts != [] {
      assert opts[0] in opts;
      NoColonsInOpts(opts[1..]);
    }
  }

  lemma NoColonsAfterSource(p: Parts)
    requires WellFormed(p)
    ensures ':' !in p.mount + (PrintSub(p.sub) + PrintTail(p.opts))
  {
    NoColonsInOpts(p.opts);
    assert ':' !in PrintSub(p.sub) && ':' !in PrintTail(p.opts);
  }

  lemma BodyHasOneColon(p: Parts)
    requires WellFormed(p)
    ensures Colons(PrintBody(p)) == 1
  {
    var after := p.mount + (PrintSub(p.sub) + PrintTail(p.opts));
    NoColonsAfterSource(p);
    NoColons(p.src);
    NoColons(after);
    BodyShape(p);
    ColonsAppend(p.src, ":" + after);
    ColonsAppend(":", after);
    assert ":"[1..] == "";
  }

  lemma SchemeHasOneColon(scheme: Scheme)
    ensures |SchemePrefix(scheme)| == 6 && Colons(SchemePrefix(scheme)) == 1
  {
    var name := if scheme.Pvc? then "pvc" else "nfs";
    assert SchemePrefix(scheme) == name + (":" + "//");
    NoColons(name);
    NoColons("//");
    ColonsAppend(":", "//");
    assert ":"[1..] == "";
    ColonsAppend(name, ":" + "//");
  }

  lemma ColonsSettleScheme(p: Parts)
    requires WellFormed(p)
    ensures Colons(Print(p)) == if p.scheme.Some? then 2 else 1
  {
    BodyHasOneColon(p);
    if p.scheme.Some? {
      SchemeHasOneColon(p.scheme.value);
      ColonsAppend(SchemePrefix(p.scheme.value), PrintBody(p));
    } else {
      assert Print(p) == PrintBody(p);
    }
  }

  /* ----- The scanner is the grammar, and the grammar is unambiguous ----- */

  lemma SchemeOfPrefixed(scheme: Scheme, body: string)
    ensures SchemeOf(SchemePrefix(scheme) + body) == Some(scheme)
    ensures (SchemePrefix(scheme) + body)[6..] == body
  {
    var s := SchemePrefix(scheme) + body;
    assert SchemePrefix(Pvc)[0] == 'p' && SchemePrefix(Nfs)[0] == 'n' && s[0] == SchemePrefix(scheme)[0];
  }

  lemma SplitScheme(s: string)
    requires SchemeOf(s).Some?
    ensures s == SchemePrefix(SchemeOf(s).value) + s[6..]
  {
  }

  lemma ScanPrinted(p: Parts)
    requires WellFormed(p)
    ensures Scan(Print(p)) == Some(p)
  {
    var s := Print(p);
    ScanPrintedBody(p);
    if p.scheme.Some? {
      SchemeOfPrefixed(p.scheme.value, PrintBody(p));
    } else {
      assert s == PrintBody(p);
      var scheme := SchemeOf(s);
      if scheme.Some? && ScanBody(scheme, s[6..]).Some? {
        var q := ScanBody(scheme, s[6..]).value;
        PrintScannedBody(scheme, s[6..], q);
        SplitScheme(s);
        ColonsSettleScheme(q);
        ColonsSettleScheme(p);
      }
    }
  }

  lemma PrintScanned(s: string, p: Parts)
    requires Scan(s) == Some(p)
    ensures WellFormed(p) && Print(p) == s
  {
    var scheme := SchemeOf(s);
    if scheme.Some? && ScanBody(scheme, s[6..]).Some? {
      PrintScannedBody(scheme, s[6..], p);
      SplitScheme(s);
    } else {
      PrintScannedBody(None, s, p);
      assert "" + s == s;
    }
  }

  lemma ScannerIsGrammar(s: string, p: Parts)
    ensures Scan(s) == Some(p) <==> WellFormed(p) && Print(p) == s
  {
    if Scan(s) == Some(p) { PrintScanned(s, p); }
    if WellFormed(p) && Print(p) == s { ScanPrinted(p); }
  }

  lemma UniqueDecomposition(p: Parts, q: Parts)
    requires WellFormed(p) && WellFormed(q) && Print(p) == Print(q)
    ensures p == q
  {
    ScanPrinted(p);
    ScanPrinted(q);
  }

  // With a single colon the scheme's own colon is the separator.
  lemma SchemeAloneIsAClaim()
    ensures Scan("pvc://x") == Some(Parts(None, "pvc", "//x", None, []))
  {
    var p := Parts(None, "pvc", "//x", None, []);
    assert Print(p) == "pvc://x";
    ScanPrinted(p);
  }
}
