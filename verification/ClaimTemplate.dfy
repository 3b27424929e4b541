// The claim template: what it makes of a volume, and what that has to do with the options of
// the volume string.
module ClaimTemplate {
  import opened Resources
  import opened JsonPatch
  import opened Cluster
  import opened VolumeGrammar
  import opened VolumeParser

  // What becomes of an attribute's value once the rendered text is rendered again until it no
  // longer changes: the value itself if it holds no reference. It may fail.
  type Expansion = (Volume, string) -> Option<string>

  predicate IsSet(attr: map<string, string>, name: string) {
    name in attr && attr[name] != ""
  }

  // The claim rendered for a volume. The choices are made on the attributes as they stand, and
  // their values are expanded where the text quotes them. The template's storage class line
  // asks for a field volumes do not have, so a claim with a storage class fails to render.
  function PvcTemplate(v: Volume, uuid: string, expand: Expansion): Option<Json>
    requires "claim" in v.attr
  {
    var attr := v.attr;
    var name := expand(v, attr["claim"]);
    var size := if IsSet(attr, "size") then expand(v, attr["size"]) else Some("1G");
    if IsSet(attr, "storageClass") || name.None? || size.None? then None
    else
      var labels := map["executor" := Str("helxapp-controller"), ID := Str(uuid)];
      var mode := if IsSet(attr, "rwx") then "ReadWriteMany"
                  else if IsSet(attr, "rox") then "ReadOnlyMany"
                  else if IsSet(attr, "rwop") then "ReadWriteOncePod"
                  else "ReadWriteOnce";
      Some(Obj(map[
        META := Obj(map[
          LABELS := Obj(if IsSet(attr, "retain") then labels[RETAIN := Str("true")] else labels),
          "name" := Str(name.value)]),
        "spec" := Obj(map[
          "accessModes" := Arr([Str(mode)]),
          "resources" := Obj(map["requests" := Obj(map["storage" := Str(size.value)])])])]))
  }

  // What templates render: a manifest without owner references, whose retain label, if it is
  // there, is "true".
  predicate Rendered(doc: Json) {
    Manifest(doc) && OwnerReferences(doc).None? && (Label(doc, RETAIN).None? || Retained(doc))
  }

  // The claim is labelled with the UUID under the expanded name of its source, and the retain
  // label depends on the retain option being there, not on what it is set to.
  lemma PvcTemplateRetains(v: Volume, uuid: string, expand: Expansion)
    requires "claim" in v.attr && PvcTemplate(v, uuid, expand).Some?
    ensures Rendered(PvcTemplate(v, uuid, expand).value)
    ensures Retained(PvcTemplate(v, uuid, expand).value) <==> IsSet(v.attr, "retain")
    ensures var labels := InMetadata(PvcTemplate(v, uuid, expand).value, "labels");
            && Field(labels, "helx.renci.org/id") == Some(Str(uuid))
            && Field(labels, "executor") == Some(Str("helxapp-controller"))
            && Field(labels, "helx.renci.org/retain") == if IsSet(v.attr, "retain") then Some(Str("true")) else None
    ensures expand(v, v.attr["claim"]).Some?
    ensures Meta(PvcTemplate(v, uuid, expand).value, "name") == Some(Str(expand(v, v.attr["claim"]).value))
    ensures Meta(PvcTemplate(v, uuid, expand).value, "namespace") == None
  {
  }

  function InSpec(doc: Json, name: string): Option<Json> {
    Field(Field(Some(doc), "spec"), name)
  }

  // The first of the options rwx, rox and rwop that is set gives the access mode.
  ghost predicate HasMode(attr: map<string, string>, mode: string) {
    || (mode == "ReadWriteMany" && IsSet(attr, "rwx"))
    || (mode == "ReadOnlyMany" && !IsSet(attr, "rwx") && IsSet(attr, "rox"))
    || (mode == "ReadWriteOncePod" && !IsSet(attr, "rwx") && !IsSet(attr, "rox") && IsSet(attr, "rwop"))
    || (mode == "ReadWriteOnce" && !IsSet(attr, "rwx") && !IsSet(attr, "rox") && !IsSet(attr, "rwop"))
  }

  // What is asked for: one access mode, and the size the option gives, expanded, or 1G.
  lemma PvcTemplateAsks(v: Volume, uuid: string, expand: Expansion)
    requires "claim" in v.attr && PvcTemplate(v, uuid, expand).Some?
    ensures var doc := PvcTemplate(v, uuid, expand).value;
            && (exists mode :: HasMode(v.attr, mode) && InSpec(doc, "accessModes") == Some(Arr([Str(mode)])))
            && var storage := Field(Field(InSpec(doc, "resources"), "requests"), "storage");
               if "size" in v.attr && v.attr["size"] != ""
               then expand(v, v.attr["size"]).Some? && storage == Some(Str(expand(v, v.attr["size"]).value))
               else storage == Some(Str("1G"))
  {
    var attr := v.attr;
    var mode := if IsSet(attr, "rwx") then "ReadWriteMany"
                else if IsSet(attr, "rox") then "ReadOnlyMany"
                else if IsSet(attr, "rwop") then "ReadWriteOncePod"
                else "ReadWriteOnce";
    assert HasMode(attr, mode);
    assert InSpec(PvcTemplate(v, uuid, expand).value, "accessModes") == Some(Arr([Str(mode)]));
  }

  // It fails exactly if a storage class is asked for, or a value it quotes cannot be expanded.
  lemma PvcTemplateFailsIff(v: Volume, uuid: string, expand: Expansion)
    requires "claim" in v.attr
    ensures PvcTemplate(v, uuid, expand).None? <==>
              || IsSet(v.attr, "storageClass")
              || expand(v, v.attr["claim"]).None?
              || (IsSet(v.attr, "size") && expand(v, v.attr["size"]).None?)
  {
  }

  // An option listed in a pvc volume string, with whatever value, is set in the volume.
  lemma ListedOptionIsSet(id: string, p: Parts, key: string)
    requires WellFormed(p) && SchemeOrPvc(p).Pvc? && key != "claim"
    requires exists o :: o in p.opts && o.key == key
    ensures Parse(id, Print(p)).Ok?
    ensures "claim" in Parse(id, Print(p)).value.0.attr && IsSet(Parse(id, Print(p)).value.0.attr, key)
  {
    ScanPrinted(p);
    var o :| o in p.opts && o.key == key;
    var i :| 0 <= i < |p.opts| && p.opts[i] == o;
    PairsLength(p.opts);
    PairsAt(p.opts, i);
    ListedKeys(Pairs(p.opts), key);
    OptionMapIsWellFormed(p.opts);
    assert OptionMap(Pairs(p.opts))[key] == Parse(id, Print(p)).value.0.attr[key];
  }

  // A volume string that lists the option retain, with whatever value, yields a claim with the
  // retain label, whatever references its values hold.
  lemma RetainOptionRetains(id: string, p: Parts, uuid: string, expand: Expansion)
    requires WellFormed(p) && SchemeOrPvc(p).Pvc?
    requires exists o :: o in p.opts && o.key == "retain"
    ensures Parse(id, Print(p)).Ok?
    ensures var v := Parse(id, Print(p)).value.0;
            && "claim" in v.attr && IsSet(v.attr, "retain")
            && (PvcTemplate(v, uuid, expand).Some? ==> Retained(PvcTemplate(v, uuid, expand).value))
  {
    assert "retain"[0] != "claim"[0];
    ListedOptionIsSet(id, p, "retain");
    var v := Parse(id, Print(p)).value.0;
    if PvcTemplate(v, uuid, expand).Some? { PvcTemplateRetains(v, uuid, expand); }
  }

  // A volume string that lists the documented option storageClass yields no claim at all.
  lemma StorageClassOptionFails(id: string, p: Parts, uuid: string, expand: Expansion)
    requires WellFormed(p) && SchemeOrPvc(p).Pvc?
    requires exists o :: o in p.opts && o.key == "storageClass"
    ensures Parse(id, Print(p)).Ok?
    ensures var v := Parse(id, Print(p)).value.0;
            "claim" in v.attr && PvcTemplate(v, uuid, expand).None?
  {
    assert |"storageClass"| != |"claim"|;
    ListedOptionIsSet(id, p, "storageClass");
  }
}
