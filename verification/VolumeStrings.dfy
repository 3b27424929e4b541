// What a volume string, an option list and an image string are read as, told from the
// characters of the string alone.
module VolumeStrings {
  import opened Resources
  import opened VolumeGrammar
  import opened VolumeParser

  /* ----- Option lists, well-formed or not ----- */

  ghost predicate Word(s: string) {
    s != "" && ':' !in s && '#' !in s && ',' !in s && '=' !in s
  }

  ghost predicate Stopped(s: string) {
    s == "" || s[0] == ':' || s[0] == '#' || s[0] == ',' || s[0] == '='
  }

  // A separator is passed over, wherever it stands.
  lemma SeparatorIsSkipped(s: string)
    ensures FindAll("") == []
    ensures s != "" && Stopped(s) ==> FindAll(s) == FindAll(s[1..])
  {
  }

  // A word without an equals sign after it is a key without a value.
  lemma BareKey(key: string, rest: string)
    requires Word(key) && Stopped(rest) && (rest != "" ==> rest[0] != '=')
    ensures FindAll(key + rest) == [(key, "")] + FindAll(rest)
  {
    BreakPrinted(key, rest, OPT_STOPS);
  }

  // With one, the word after it is its value ...
  lemma KeyAndValue(key: string, value: string, rest: string)
    requires Word(key) && Word(value) && Stopped(rest)
    ensures FindAll(key + ("=" + (value + rest))) == [(key, value)] + FindAll(rest)
  {
    BreakPrinted(key, "=" + (value + rest), OPT_STOPS);
    assert ("=" + (value + rest))[1..] == value + rest;
    BreakPrinted(value, rest, OPT_STOPS);
  }

  // ... and without a word after it the key has none.
  lemma KeyWithoutValue(key: string, rest: string)
    requires Word(key) && Stopped(rest)
    ensures FindAll(key + ("=" + rest)) == [(key, "")] + FindAll(rest)
  {
    BreakPrinted(key, "=" + rest, OPT_STOPS);
    assert ("=" + rest)[1..] == rest && "" + rest == rest;
    BreakPrinted("", rest, OPT_STOPS);
    SeparatorIsSkipped("=" + rest);
  }

  // The image is what stands before the first comma, the options are what stands after it.
  lemma ImageIsBeforeComma(image: string, options: string)
    requires ',' !in image
    ensures ParseImage(image) == Image(image, map[])
    ensures ParseImage(image + ("," + options)) == Image(image, OptionMap(FindAll(options)))
  {
    assert image + "" == image;
    BreakPrinted(image, "", {','});
    BreakPrinted(image, "," + options, {','});
    assert ("," + options)[1..] == options;
  }

  /* ----- Volume strings ----- */

  ghost predicate Plain(s: string) {
    ':' !in s && '#' !in s && ',' !in s
  }

  // The source before the colon, the mount point after it, then a subpath after a number sign,
  // if there is one, then the options after a comma, if there are any.
  ghost predicate LaidOut(body: string, src: string, mount: string, sub: Option<string>, options: Option<string>) {
    && src != "" && Plain(src) && mount != "" && Plain(mount) && (sub.Some? ==> Plain(sub.value))
    && body == src + (":" + (mount + ((if sub.Some? then "#" + sub.value else "")
                                      + (if options.Some? then "," + options.value else ""))))
  }

  function OrEmpty(s: Option<string>): string {
    if s.Some? then s.value else ""
  }

  // Whatever is accepted with one colon is laid out so.
  lemma AcceptedIsLaidOut(id: string, body: string) returns (p: Parts, options: Option<string>)
    requires Parse(id, body).Ok? && Colons(body) == 1
    ensures WellFormed(p) && p.scheme.None? && PrintBody(p) == body && Parse(id, body) == Meaning(id, p)
    ensures LaidOut(body, p.src, p.mount, p.sub, options)
    ensures OptionMap(Pairs(p.opts)) == OptionMap(FindAll(OrEmpty(options)))
  {
    p := Scan(body).value;
    PrintScanned(body, p);
    ColonsSettleScheme(p);
    BodyShape(p);
    assert "" + PrintBody(p) == PrintBody(p);
    options := if p.opts == [] then None else Some(PrintOpts(p.opts));
    TokenizerIsSplit(p.opts);
  }

  lemma PrefixedParses(id: string, scheme: Scheme, p: Parts)
    requires WellFormed(p) && p.scheme.None?
    ensures Parse(id, (if scheme.Pvc? then "pvc://" else "nfs://") + PrintBody(p))
            == Meaning(id, p.(scheme := Some(scheme)))
  {
    ScanPrinted(p.(scheme := Some(scheme)));
  }

  ghost predicate ReadsAs(v: Volume, m: VolumeMount, id: string, mount: string, sub: Option<string>) {
    v.name == id && m.name == id && m.mountPath == mount && m.subPath == OrEmpty(sub)
    && (m.readOnly <==> "ro" in v.attr && v.attr["ro"] == "true")
  }

  // With pvc:// in front, and likewise without a scheme, the source is the claim.
  lemma PvcString(id: string, body: string)
    requires Parse(id, body).Ok? && Colons(body) == 1
    ensures Parse(id, "pvc://" + body) == Parse(id, body)
    ensures exists src, mount, sub, options :: LaidOut(body, src, mount, sub, options)
              && var (v, m) := Parse(id, body).value;
                 && ReadsAs(v, m, id, mount, sub)
                 && v.scheme == Pvc
                 && v.attr == OptionMap(FindAll(OrEmpty(options)))["claim" := src]
  {
    var p, options := AcceptedIsLaidOut(id, body);
    PrefixedParses(id, Pvc, p);
    assert LaidOut(body, p.src, p.mount, p.sub, options);
  }

  // A source of two slashes at least, split at the first two.
  ghost predicate SplitAt(src: string, before: string, server: string, rest: string) {
    '/' !in before && '/' !in server && src == before + ("/" + (server + ("/" + rest)))
  }

  lemma NfsSourceIff(src: string)
    ensures NfsSource(src).Some? <==> exists before, server, rest :: SplitAt(src, before, server, rest)
    ensures forall before, server, rest :: SplitAt(src, before, server, rest) ==>
              NfsSource(src) == Some((server, "/" + rest))
  {
    forall before, server, rest | SplitAt(src, before, server, rest)
      ensures NfsSource(src) == Some((server, "/" + rest))
    {
      BreakPrinted(before, "/" + (server + ("/" + rest)), {'/'});
      assert ("/" + (server + ("/" + rest)))[1..] == server + ("/" + rest);
      BreakPrinted(server, "/" + rest, {'/'});
      assert ("/" + rest)[1..] == rest;
    }
    if NfsSource(src).Some? {
      var (before, tail) := Break(src, {'/'});
      var (server, end) := Break(tail[1..], {'/'});
      assert tail == "/" + tail[1..] && end == "/" + end[1..];
      assert SplitAt(src, before, server, end[1..]);
    }
  }

  ghost predicate Splits(src: string) {
    exists before, server, rest :: SplitAt(src, before, server, rest)
  }

  ghost predicate SplitAttributes(attr: map<string, string>, src: string, options: map<string, string>) {
    exists before, server, rest ::
      SplitAt(src, before, server, rest) && attr == options["server" := server]["path" := "/" + rest]
  }

  // What an nfs string of that source, mount point, subpath and options is read as.
  ghost predicate NfsReadsAs(r: Result<(Volume, VolumeMount)>, id: string, src: string, mount: string,
                             sub: Option<string>,
                             options: map<string, string>)
  {
    && (!Splits(src) ==> r == Err(InvalidNfsSource))
    && (Splits(src) ==>
          && r.Ok? && ReadsAs(r.value.0, r.value.1, id, mount, sub)
          && r.value.0.scheme == Nfs && SplitAttributes(r.value.0.attr, src, options))
  }

  lemma NfsMeaningReads(id: string, p: Parts)
    requires p.scheme == Some(Nfs)
    ensures NfsReadsAs(Meaning(id, p), id, p.src, p.mount, p.sub, OptionMap(Pairs(p.opts)))
  {
    NfsSourceIff(p.src);
    if Splits(p.src) {
      var before, server, rest :| SplitAt(p.src, before, server, rest);
      assert Meaning(id, p).value.0.attr == OptionMap(Pairs(p.opts))["server" := server]["path" := "/" + rest];
    }
  }

  // With nfs:// in front the source is split at its first two slashes: what stands before the
  // first is dropped, the server stands between them, and the path begins with the second.
  lemma NfsString(id: string, body: string)
    requires Parse(id, body).Ok? && Colons(body) == 1
    ensures exists src, mount, sub, options :: LaidOut(body, src, mount, sub, options)
              && NfsReadsAs(Parse(id, "nfs://" + body), id, src, mount, sub, OptionMap(FindAll(OrEmpty(options))))
  {
    var p, options := AcceptedIsLaidOut(id, body);
    PrefixedParses(id, Nfs, p);
    NfsMeaningReads(id, p.(scheme := Some(Nfs)));
    assert LaidOut(body, p.src, p.mount, p.sub, options);
  }
}
