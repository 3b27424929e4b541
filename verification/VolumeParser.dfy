// From a volume or image string to what the templates are given: the option tokenizer, the
// attribute map, and the treatment of the source by scheme.
module VolumeParser {
  import opened Resources
  import opened VolumeGrammar

  datatype Volume = Volume(name: string, scheme: Scheme, attr: map<string, string>)

  datatype VolumeMount = VolumeMount(name: string, mountPath: string, subPath: string, readOnly: bool)

  datatype Error = NoMatch | InvalidNfsSource

  datatype Result<+T> = Ok(value: T) | Err(error: Error)

  datatype Image = Image(name: string, attr: map<string, string>)

  /* ----- Options ----- */

  // All leftmost, longest matches of  ([^:#,=]+)(?:=([^:#,=]+))?  with their two groups; an
  // absent value is empty.
  function FindAll(s: string): seq<(string, string)>
    decreases |s|
  {
    if s == "" then []
    else
      var (key, rest) := Break(s, OPT_STOPS);
      if key == "" then FindAll(s[1..])
      else if rest != "" && rest[0] == '=' && Break(rest[1..], OPT_STOPS).0 != "" then
        var (value, more) := Break(rest[1..], OPT_STOPS);
        [(key, value)] + FindAll(more)
      else [(key, "")] + FindAll(rest)
  }

  function ValueOrTrue(value: string): string {
    if value == "" then "true" else value
  }

  // The map a list of pairs builds up, entry by entry.
  function OptionMap(pairs: seq<(string, string)>): map<string, string> {
    if pairs == [] then map[]
    else
      var last := pairs[|pairs| - 1];
      OptionMap(pairs[..|pairs| - 1])[last.0 := ValueOrTrue(last.1)]
  }

  method ParseOptions(options: string) returns (attr: map<string, string>)
    ensures attr == OptionMap(FindAll(options))
  {
    attr := map[];
    if options != "" {
      var pairs := FindAll(options);
      for i := 0 to |pairs|
        invariant attr == OptionMap(pairs[..i])
      {
        var value := "true";
        if pairs[i].1 != "" {
          value := pairs[i].1;
        }
        attr := attr[pairs[i].0 := value];
        assert pairs[..i + 1][..i] == pairs[..i];
      }
      assert pairs[..|pairs|] == pairs;
    }
  }

  function PairOf(o: Opt): (string, string) {
    (o.key, if o.value.Some? then o.value.value else "")
  }

  // The pairs a well-formed list stands for: one per option, split at its equals sign.
  function Pairs(opts: seq<Opt>): seq<(string, string)> {
    if opts == [] then []
    else [PairOf(opts[0])] + Pairs(opts[1..])
  }

  lemma FindAllOption(o: Opt, tail: string)
    requires WellFormedOpt(o) && (tail == "" || tail[0] == ',')
    ensures FindAll(PrintOpt(o) + tail) == [PairOf(o)] + FindAll(tail)
  {
    if o.value.Some? {
      var rest := "=" + (o.value.value + tail);
      assert PrintOpt(o) + tail == o.key + rest;
      BreakPrinted(o.key, rest, OPT_STOPS);
      assert rest[1..] == o.value.value + tail;
      BreakPrinted(o.value.value, tail, OPT_STOPS);
    } else {
      assert PrintOpt(o) + tail == o.key + tail;
      BreakPrinted(o.key, tail, OPT_STOPS);
    }
  }

  lemma SkipComma(opts: seq<Opt>)
    requires opts != []
    ensures FindAll(PrintTail(opts)) == FindAll(PrintOpts(opts))
  {
    assert PrintTail(opts)[1..] == PrintOpts(opts);
    assert Break(PrintTail(opts), OPT_STOPS).0 == "";
  }

  lemma {:induction false} TokenizerIsSplit(opts: seq<Opt>)
    requires WellFormedOpts(opts)
    ensures FindAll(PrintOpts(opts)) == Pairs(opts)
  {
    if opts != [] {
      assert opts[0] in opts;
      FindAllOption(opts[0], PrintTail(opts[1..]));
      TokenizerIsSplit(opts[1..]);
      if opts[1..] != [] { SkipComma(opts[1..]); }
    }
  }

  ghost predicate LastOf(pairs: seq<(string, string)>, i: nat, k: string) {
    i < |pairs| && pairs[i].0 == k && forall j :: i < j < |pairs| ==> pairs[j].0 != k
  }

  ghost predicate Listed(pairs: seq<(string, string)>, k: string) {
    exists i :: 0 <= i < |pairs| && pairs[i].0 == k
  }

  // A key is in the map exactly if it is listed ...
  lemma {:induction false} ListedKeys(pairs: seq<(string, string)>, k: string)
    ensures k in OptionMap(pairs) <==> Listed(pairs, k)
  {
    if pairs != [] {
      var n := |pairs| - 1;
      ListedKeys(pairs[..n], k);
      assert Listed(pairs, k) <==> Listed(pairs[..n], k) || pairs[n].0 == k by {
        assert pairs == pairs[..n] + [pairs[n]];
        if Listed(pairs[..n], k) {
          var i :| 0 <= i < n && pairs[..n][i].0 == k;
          assert pairs[i].0 == k;
        }
      }
    }
  }

  // ... and has the value it is listed with last.
  lemma {:induction false} LastWins(pairs: seq<(string, string)>, i: nat, k: string)
    requires LastOf(pairs, i, k)
    ensures k in OptionMap(pairs) && OptionMap(pairs)[k] == if pairs[i].1 == "" then "true" else pairs[i].1
  {
    if i < |pairs| - 1 {
      LastWins(pairs[..|pairs| - 1], i, k);
    }
  }

  ghost predicate DistinctKeys(pairs: seq<(string, string)>) {
    forall i, j :: 0 <= i < j < |pairs| ==> pairs[i].0 != pairs[j].0
  }

  lemma OptionsIncluded(a: seq<(string, string)>, b: seq<(string, string)>)
    requires DistinctKeys(a) && DistinctKeys(b) && multiset(a) == multiset(b)
    ensures forall k :: k in OptionMap(a) ==> k in OptionMap(b) && OptionMap(b)[k] == OptionMap(a)[k]
  {
    forall k | k in OptionMap(a) ensures k in OptionMap(b) && OptionMap(b)[k] == OptionMap(a)[k] {
      ListedKeys(a, k);
      var i :| 0 <= i < |a| && a[i].0 == k;
      assert a[i] in multiset(b);
      var j :| 0 <= j < |b| && b[j] == a[i];
      LastWins(a, i, k);
      LastWins(b, j, k);
    }
  }

  lemma OptionOrderDoesNotMatter(a: seq<(string, string)>, b: seq<(string, string)>)
    requires DistinctKeys(a) && DistinctKeys(b) && multiset(a) == multiset(b)
    ensures OptionMap(a) == OptionMap(b)
  {
    OptionsIncluded(a, b);
    OptionsIncluded(b, a);
  }

  /* ----- The volume string ----- */

  function SchemeOrPvc(p: Parts): Scheme {
    if p.scheme.Some? then p.scheme.value else Pvc
  }

  // SplitN(src, "/", 3) with fewer than three parts is an error; the first part is discarded.
  function NfsSource(src: string): Option<(string, string)> {
    var (_, rest) := Break(src, {'/'});
    if rest == "" then None
    else
      var (server, path) := Break(rest[1..], {'/'});
      if path == "" then None else Some((server, "/" + path[1..]))
  }

  predicate ReadOnly(attr: map<string, string>) {
    "ro" in attr && attr["ro"] == "true"
  }

  function MountOf(id: string, p: Parts, attr: map<string, string>): VolumeMount {
    VolumeMount(id, p.mount, if p.sub.Some? then p.sub.value else "", ReadOnly(attr))
  }

  // What the parts of an accepted string mean.
  function Meaning(id: string, p: Parts): Result<(Volume, VolumeMount)> {
    var options := OptionMap(Pairs(p.opts));
    match SchemeOrPvc(p)
    case Pvc =>
      var attr := options["claim" := p.src];
      Ok((Volume(id, Pvc, attr), MountOf(id, p, attr)))
    case Nfs =>
      var source := NfsSource(p.src);
      if source.None? then Err(InvalidNfsSource)
      else
        var attr := options["server" := source.value.0]["path" := source.value.1];
        Ok((Volume(id, Nfs, attr), MountOf(id, p, attr)))
  }

  function Parse(id: string, s: string): Result<(Volume, VolumeMount)> {
    var p := Scan(s);
    if p.None? then Err(NoMatch) else Meaning(id, p.value)
  }

  lemma OptionsOfScanned(s: string, p: Parts)
    requires Scan(s) == Some(p)
    ensures FindAll(PrintOpts(p.opts)) == Pairs(p.opts)
  {
    PrintScanned(s, p);
    TokenizerIsSplit(p.opts);
  }

  method ProcessVolume(id: string, s: string) returns (r: Result<(Volume, VolumeMount)>)
    ensures r == Parse(id, s)
  {
    var matches := Scan(s);
    if matches.None? {
      return Err(NoMatch);
    }
    var p := matches.value;
    var scheme := Pvc;
    if p.scheme.Some? {
      scheme := p.scheme.value;
    }
    var attr := ParseOptions(PrintOpts(p.opts));
    OptionsOfScanned(s, p);
    if scheme.Pvc? {
      attr := attr["claim" := p.src];
    } else {
      var source := NfsSource(p.src);
      if source.None? {
        return Err(InvalidNfsSource);
      }
      attr := attr["server" := source.value.0];
      attr := attr["path" := source.value.1];
    }
    var readOnly := false;
    if "ro" in attr && attr["ro"] == "true" {
      readOnly := true;
    }
    r := Ok((Volume(id, scheme, attr), VolumeMount(id, p.mount, if p.sub.Some? then p.sub.value else "", readOnly)));
  }

  function ParseImage(input: string): Image {
    var (name, rest) := Break(input, {','});
    Image(name, OptionMap(FindAll(if rest == "" then "" else rest[1..])))
  }

  method ProcessImageAndOptions(input: string) returns (image: Image)
    ensures image == ParseImage(input)
  {
    var (name, rest) := Break(input, {','});
    var options := "";
    if rest != "" {
      options := rest[1..];
    }
    var attr := ParseOptions(options);
    image := Image(name, attr);
  }

  // An image and a volume read the same well-formed list alike, and no option, whatever its
  // key, changes the source.
  lemma SameOptionsForImageAndVolume(id: string, image: string, p: Parts)
    requires WellFormed(p) && p.opts != [] && Avoids(image, {','})
    ensures ParseImage(image + "," + PrintOpts(p.opts)) == Image(image, OptionMap(Pairs(p.opts)))
    ensures SchemeOrPvc(p).Pvc? ==>
              && Parse(id, Print(p)).Ok?
              && Parse(id, Print(p)).value.0.attr == OptionMap(Pairs(p.opts))["claim" := p.src]
    ensures SchemeOrPvc(p).Nfs? ==>
              (Parse(id, Print(p)).Ok? <==> NfsSource(p.src).Some?)
    ensures SchemeOrPvc(p).Nfs? && NfsSource(p.src).Some? ==>
              Parse(id, Print(p)).value.0.attr
              == OptionMap(Pairs(p.opts))["server" := NfsSource(p.src).value.0]["path" := NfsSource(p.src).value.1]
  {
    var tail := "," + PrintOpts(p.opts);
    assert image + "," + PrintOpts(p.opts) == image + tail;
    BreakPrinted(image, tail, {','});
    assert tail[1..] == PrintOpts(p.opts);
    TokenizerIsSplit(p.opts);
    ScanPrinted(p);
  }

  ghost predicate LastOption(opts: seq<Opt>, i: int, k: string) {
    0 <= i < |opts| && opts[i].key == k && forall j :: i < j < |opts| ==> opts[j].key != k
  }

  ghost predicate SaysReadOnly(opts: seq<Opt>) {
    exists i :: LastOption(opts, i, "ro") && (opts[i].value.None? || opts[i].value == Some("true"))
  }

  lemma {:induction false} PairsLength(opts: seq<Opt>)
    ensures |Pairs(opts)| == |opts|
  {
    if opts != [] { PairsLength(opts[1..]); }
  }

  lemma {:induction false} PairsAt(opts: seq<Opt>, i: nat)
    requires i < |Pairs(opts)|
    ensures |Pairs(opts)| == |opts|
    ensures Pairs(opts)[i].0 == opts[i].key
    ensures Pairs(opts)[i].1 == if opts[i].value.Some? then opts[i].value.value else ""
  {
    if i > 0 { PairsAt(opts[1..], i - 1); } else { PairsLength(opts); }
  }

  lemma LastOptionValue(opts: seq<Opt>, i: int, k: string)
    requires WellFormedOpts(opts) && LastOption(opts, i, k)
    ensures k in OptionMap(Pairs(opts))
    ensures OptionMap(Pairs(opts))[k] == if opts[i].value.Some? then opts[i].value.value else "true"
  {
    PairsLength(opts);
    forall j | i <= j < |opts| ensures Pairs(opts)[j] == PairOf(opts[j]) { PairsAt(opts, j); }
    assert opts[i] in opts;
    LastWins(Pairs(opts), i, k);
  }

  lemma LastIndex(pairs: seq<(string, string)>, k: string, i: nat) returns (last: nat)
    requires i < |pairs| && pairs[i].0 == k
    ensures LastOf(pairs, last, k)
    decreases |pairs| - i
  {
    if j :| i < j < |pairs| && pairs[j].0 == k {
      last := LastIndex(pairs, k, j);
    } else {
      last := i;
    }
  }

  lemma ReadOnlyOptions(opts: seq<Opt>)
    requires WellFormedOpts(opts)
    ensures ReadOnly(OptionMap(Pairs(opts))) <==> SaysReadOnly(opts)
  {
    var pairs := Pairs(opts);
    ListedKeys(pairs, "ro");
    PairsLength(opts);
    if first :| 0 <= first < |pairs| && pairs[first].0 == "ro" {
      var last := LastIndex(pairs, "ro", first);
      forall j | 0 <= j < |opts| ensures pairs[j].0 == opts[j].key { PairsAt(opts, j); }
      assert LastOption(opts, last, "ro");
      LastOptionValue(opts, last, "ro");
    } else {
      forall j | 0 <= j < |opts| ensures opts[j].key != "ro" { PairsAt(opts, j); }
    }
  }

  lemma MeaningReadsOptions(id: string, p: Parts)
    requires Meaning(id, p).Ok?
    ensures Meaning(id, p).value.1.readOnly == ReadOnly(OptionMap(Pairs(p.opts)))
  {
    var options := OptionMap(Pairs(p.opts));
    if SchemeOrPvc(p).Pvc? {
    } else {
      var (server, path) := NfsSource(p.src).value;
    }
  }

  // A volume is mounted read-only exactly if its last option ro is bare or set to true.
  lemma ReadOnlyIff(id: string, p: Parts)
    requires WellFormed(p) && Parse(id, Print(p)).Ok?
    ensures Parse(id, Print(p)).value.1.readOnly <==> SaysReadOnly(p.opts)
  {
    ScanPrinted(p);
    MeaningReadsOptions(id, p);
    ReadOnlyOptions(p.opts);
  }

  /* ----- A claim with a size ----- */

  lemma OneOptionTail(o: Opt)
    ensures PrintTail([o]) == "," + PrintOpt(o)
  {
    assert [o][1..] == [] && PrintOpts([o]) == PrintOpt(o) + "";
  }

  function OneSize(value: string): Parts {
    Parts(None, "c", "/m", None, [Opt("size", Some(value))])
  }

  lemma PrintOneSize(value: string)
    requires value != "" && Avoids(value, OPT_STOPS)
    ensures WellFormed(OneSize(value)) && Print(OneSize(value)) == "c:/m,size=" + value
  {
    OneOptionTail(OneSize(value).opts[0]);
    assert PrintTail(OneSize(value).opts) == ",size=" + value;
    assert Avoids("size", OPT_STOPS);
  }

  lemma MeaningOfOneSize(id: string, value: string)
    requires value != ""
    ensures Meaning(id, OneSize(value)).Ok?
    ensures Meaning(id, OneSize(value)).value.0 == Volume(id, Pvc, map["size" := value, "claim" := "c"])
  {
    var pairs := Pairs(OneSize(value).opts);
    assert Pairs(OneSize(value).opts[1..]) == [];
    assert pairs == [("size", value)] && pairs[..0] == [];
    assert OptionMap(pairs) == map["size" := value];
  }

  lemma ParseOneSize(id: string, value: string)
    requires value != "" && Avoids(value, OPT_STOPS)
    ensures Parse(id, "c:/m,size=" + value).Ok?
    ensures Parse(id, "c:/m,size=" + value).value.0 == Volume(id, Pvc, map["size" := value, "claim" := "c"])
  {
    PrintOneSize(value);
    ScanPrinted(OneSize(value));
    MeaningOfOneSize(id, value);
  }

  /* ----- Round trip ----- */

  function SourceKeys(scheme: Scheme): set<string> {
    if scheme.Pvc? then {"claim"} else {"server", "path"}
  }

  // The pairs the parser can produce.
  ghost predicate WellFormedPair(v: Volume, m: VolumeMount) {
    && v.name == m.name
    && m.mountPath != "" && Avoids(m.mountPath, STOPS) && Avoids(m.subPath, STOPS)
    && m.readOnly == ReadOnly(v.attr)
    && SourceKeys(v.scheme) <= v.attr.Keys
    && (forall k :: k in v.attr.Keys - SourceKeys(v.scheme) ==> WellFormedOpt(Opt(k, Some(v.attr[k]))))
    && (v.scheme.Pvc? ==> v.attr["claim"] != "" && Avoids(v.attr["claim"], STOPS))
    && (v.scheme.Nfs? ==>
          && Avoids(v.attr["server"], STOPS + {'/'})
          && "/" <= v.attr["path"] && Avoids(v.attr["path"], STOPS))
  }

  function OptsOf(attr: map<string, string>, order: seq<string>): seq<Opt>
    requires forall k :: k in order ==> k in attr
  {
    if order == [] then [] else [Opt(order[0], Some(attr[order[0]]))] + OptsOf(attr, order[1..])
  }

  // The pair as a string, its options in the given order.
  function ToParts(v: Volume, m: VolumeMount, order: seq<string>): Parts
    requires SourceKeys(v.scheme) <= v.attr.Keys
    requires forall k :: k in order ==> k in v.attr
  {
    var src := if v.scheme.Pvc? then v.attr["claim"] else "/" + v.attr["server"] + v.attr["path"];
    Parts(Some(v.scheme), src, m.mountPath, if m.subPath == "" then None else Some(m.subPath), OptsOf(v.attr, order))
  }

  lemma {:induction false} PairsOfOpts(attr: map<string, string>, order: seq<string>)
    requires forall k :: k in order ==> k in attr && WellFormedOpt(Opt(k, Some(attr[k])))
    ensures WellFormedOpts(OptsOf(attr, order))
    ensures |Pairs(OptsOf(attr, order))| == |order|
    ensures forall i :: 0 <= i < |order| ==> Pairs(OptsOf(attr, order))[i] == (order[i], attr[order[i]])
  {
    if order != [] {
      assert order[0] in order;
      PairsOfOpts(attr, order[1..]);
      assert OptsOf(attr, order)[1..] == OptsOf(attr, order[1..]);
    }
  }

  lemma OptionsPrintedFromMap(attr: map<string, string>, keys: set<string>, order: seq<string>)
    requires keys <= attr.Keys && Enumerates(order, keys)
    requires forall k :: k in keys ==> WellFormedOpt(Opt(k, Some(attr[k])))
    ensures WellFormedOpts(OptsOf(attr, order))
    ensures OptionMap(Pairs(OptsOf(attr, order))) == map k | k in keys :: attr[k]
  {
    var pairs := Pairs(OptsOf(attr, order));
    PairsOfOpts(attr, order);
    var m := OptionMap(pairs);
    forall k ensures k in m <==> k in keys {
      ListedKeys(pairs, k);
      if k in keys {
        var i :| 0 <= i < |order| && order[i] == k;
        assert pairs[i].0 == k;
      }
    }
    forall k | k in keys ensures m[k] == attr[k] {
      var i :| 0 <= i < |order| && order[i] == k;
      LastWins(pairs, i, k);
    }
  }

  lemma NfsSourcePrinted(server: string, path: string)
    requires Avoids(server, {'/'}) && "/" <= path
    ensures NfsSource("/" + server + path) == Some((server, path))
  {
    var s := "/" + server + path;
    BreakPrinted("", s, {'/'});
    assert "" + s == s;
    assert s[1..] == server + path;
    BreakPrinted(server, path, {'/'});
    assert "/" + path[1..] == path;
  }

  lemma PartsAreWellFormed(v: Volume, m: VolumeMount, order: seq<string>)
    requires WellFormedPair(v, m)
    requires Enumerates(order, v.attr.Keys - SourceKeys(v.scheme))
    ensures WellFormed(ToParts(v, m, order))
    ensures OptionMap(Pairs(ToParts(v, m, order).opts)) == map k | k in v.attr.Keys - SourceKeys(v.scheme) :: v.attr[k]
  {
    OptionsPrintedFromMap(v.attr, v.attr.Keys - SourceKeys(v.scheme), order);
  }

  lemma RestoreOne(attr: map<string, string>, a: string)
    requires a in attr
    ensures (map k | k in attr.Keys - {a} :: attr[k])[a := attr[a]] == attr
  {
  }

  lemma RestoreTwo(attr: map<string, string>, a: string, b: string)
    requires a in attr && b in attr
    ensures (map k | k in attr.Keys - {a, b} :: attr[k])[a := attr[a]][b := attr[b]] == attr
  {
  }

  lemma MeaningOfPvcParts(v: Volume, m: VolumeMount, order: seq<string>)
    requires WellFormedPair(v, m) && v.scheme.Pvc?
    requires Enumerates(order, v.attr.Keys - SourceKeys(v.scheme))
    ensures Meaning(v.name, ToParts(v, m, order)) == Ok((v, m))
  {
    PartsAreWellFormed(v, m, order);
    RestoreOne(v.attr, "claim");
  }

  lemma MeaningOfNfsParts(v: Volume, m: VolumeMount, order: seq<string>)
    requires WellFormedPair(v, m) && v.scheme.Nfs?
    requires Enumerates(order, v.attr.Keys - SourceKeys(v.scheme))
    ensures Meaning(v.name, ToParts(v, m, order)) == Ok((v, m))
  {
    PartsAreWellFormed(v, m, order);
    NfsSourcePrinted(v.attr["server"], v.attr["path"]);
    RestoreTwo(v.attr, "server", "path");
  }

  lemma PrintThenParse(v: Volume, m: VolumeMount, order: seq<string>)
    requires WellFormedPair(v, m)
    requires Enumerates(order, v.attr.Keys - SourceKeys(v.scheme))
    ensures Parse(v.name, Print(ToParts(v, m, order))) == Ok((v, m))
  {
    PartsAreWellFormed(v, m, order);
    if v.scheme.Pvc? { MeaningOfPvcParts(v, m, order); } else { MeaningOfNfsParts(v, m, order); }
    ScanPrinted(ToParts(v, m, order));
  }

  lemma {:induction false} OptionMapIsWellFormed(opts: seq<Opt>)
    requires WellFormedOpts(opts)
    ensures forall k :: k in OptionMap(Pairs(opts)) ==> WellFormedOpt(Opt(k, Some(OptionMap(Pairs(opts))[k])))
  {
    var pairs := Pairs(opts);
    forall k | k in OptionMap(pairs) ensures WellFormedOpt(Opt(k, Some(OptionMap(pairs)[k]))) {
      ListedKeys(pairs, k);
      var i :| 0 <= i < |pairs| && pairs[i].0 == k;
      var last := LastIndex(pairs, k, i);
      LastWins(pairs, last, k);
      PairsAt(opts, last);
      assert opts[last] in opts;
      assert Avoids("true", OPT_STOPS);
    }
  }

  lemma NfsSourceIsWellFormed(src: string)
    requires Avoids(src, STOPS) && NfsSource(src).Some?
    ensures Avoids(NfsSource(src).value.0, STOPS + {'/'})
    ensures "/" <= NfsSource(src).value.1 && Avoids(NfsSource(src).value.1, STOPS)
  {
    var (_, rest) := Break(src, {'/'});
    assert forall c :: c in rest[1..] ==> c in rest;
    var (server, path) := Break(rest[1..], {'/'});
    assert "/" + path[1..] == path;
  }

  lemma ParsedIsWellFormed(id: string, s: string)
    requires Parse(id, s).Ok?
    ensures Parse(id, s).value.0.name == id
    ensures WellFormedPair(Parse(id, s).value.0, Parse(id, s).value.1)
  {
    var p := Scan(s).value;
    PrintScanned(s, p);
    OptionMapIsWellFormed(p.opts);
    if SchemeOrPvc(p).Nfs? { NfsSourceIsWellFormed(p.src); }
    assert Avoids("", STOPS);
  }

  // Printing what was parsed and parsing it again changes nothing, whatever order the options
  // are printed in.
  lemma ParsePrintParse(id: string, s: string, order: seq<string>)
    requires Parse(id, s).Ok?
    requires var (v, m) := Parse(id, s).value; Enumerates(order, v.attr.Keys - SourceKeys(v.scheme))
    ensures var (v, m) := Parse(id, s).value;
            && WellFormedPair(v, m)
            && Parse(id, Print(ToParts(v, m, order))) == Parse(id, s)
  {
    ParsedIsWellFormed(id, s);
    var (v, m) := Parse(id, s).value;
    PrintThenParse(v, m, order);
  }

  function Slashes(s: string): nat {
    if s == "" then 0 else (if s[0] == '/' then 1 else 0) + Slashes(s[1..])
  }

  lemma {:induction false} SlashesAfterBreak(s: string)
    ensures var rest := Break(s, {'/'}).1;
            Slashes(s) == if rest == "" then 0 else 1 + Slashes(rest[1..])
  {
    if s != "" && s[0] != '/' {
      SlashesAfterBreak(s[1..]);
    }
  }

  // An accepted nfs string is one whose source holds two slashes, so the documented
  // "nfs://server/path:..." is none.
  lemma NfsNeedsTwoSlashes(id: string, p: Parts)
    requires WellFormed(p) && p.scheme == Some(Nfs)
    ensures Parse(id, Print(p)).Ok? <==> Slashes(p.src) >= 2
    ensures Parse(id, Print(p)).Err? ==> Parse(id, Print(p)).error == InvalidNfsSource
  {
    ScanPrinted(p);
    var rest := Break(p.src, {'/'}).1;
    SlashesAfterBreak(p.src);
    if rest != "" { SlashesAfterBreak(rest[1..]); }
  }

  lemma {:induction false} SlashesAppend(a: string, b: string)
    ensures Slashes(a + b) == Slashes(a) + Slashes(b)
  {
    if a == "" {
      assert a + b == b;
    } else {
      assert (a + b)[1..] == a[1..] + b;
      SlashesAppend(a[1..], b);
    }
  }

  lemma {:induction false} NoSlashes(s: string)
    requires '/' !in s
    ensures Slashes(s) == 0
  {
    if s != "" {
      assert forall c :: c in s[1..] ==> c in s;
      NoSlashes(s[1..]);
    }
  }

  lemma DocumentedNfsExampleIsRejected(id: string, p: Parts)
    requires WellFormed(p) && p.scheme == Some(Nfs) && p.src == "server/path"
    ensures Parse(id, Print(p)) == Err(InvalidNfsSource)
  {
    NoSlashes("server");
    NoSlashes("path");
    SlashesAppend("server", "/path");
    assert "server/path" == "server" + "/path" && "/path"[1..] == "path";
    NfsNeedsTwoSlashes(id, p);
  }

  // The documented source "//server/path" is accepted, with the server taken to be empty and
  // its name taken into the path.
  lemma DoubleSlashHasNoServer(id: string, p: Parts, rest: string)
    requires WellFormed(p) && p.scheme == Some(Nfs) && p.src == "//" + rest
    ensures Parse(id, Print(p)).Ok?
    ensures var attr := Parse(id, Print(p)).value.0.attr;
            "server" in attr && attr["server"] == "" && "path" in attr && attr["path"] == "/" + rest
  {
    ScanPrinted(p);
    var path := "/" + rest;
    assert p.src == "/" + "" + path;
    NfsSourcePrinted("", path);
  }
}
