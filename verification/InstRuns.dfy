// One HelxInst and its reconciler against the API server: the reconciler's own steps, tied to
// those of the status state machine, so that what holds of every run of that holds of it.
module InstRuns {
  import opened Resources
  import opened Graph
  import opened Reconcile
  import SW = StatusWrites

  // A stored resource with its revision.
  datatype Object = Object(inst: HelxInst, revision: nat)

  // `past`: every object ever stored. `pending`: the object a full reconcile began from and the
  // status it is to write.
  datatype Sys = Sys(stored: Object, past: set<Object>, pending: Option<(Object, HelxInst)>, w: World)

  datatype Event =
    | EditSpec(inst: HelxInst)
    | EditOther
    | Begin(read: Object, newUuid: string, done: set<string>)
    | Finish(fault: bool)
    | Restart

  // The API server keeps the name and the status of an edited resource and counts its generation.
  ghost predicate Enabled(s: Sys, e: Event) {
    match e
    case EditSpec(inst) =>
      && InstName(inst) == InstName(s.stored.inst) && inst.uuid == s.stored.inst.uuid
      && inst.observedGeneration == s.stored.inst.observedGeneration
      && inst.generation == s.stored.inst.generation + 1
    case Begin(read, newUuid, _) => s.pending.None? && read in s.past && newUuid != ""
    case Finish(_) => s.pending.Some?
    case _ => true
  }

  ghost function Store(s: Sys, o: Object): Sys {
    s.(stored := o, past := s.past + {o})
  }

  ghost function Next(s: Sys, e: Event): Sys
    requires Enabled(s, e)
  {
    match e
    case EditSpec(inst) => Store(s, Object(inst, s.stored.revision + 1))
    case EditOther => Store(s, Object(s.stored.inst, s.stored.revision + 1))
    case Begin(read, newUuid, done) =>
      var status := StatusOf(read.inst, newUuid);
      s.(w := InstReconciled(s.w, InstName(read.inst), Found(read.inst), newUuid, done),
         pending := if status.None? then None else Some((read, status.value)))
    case Finish(fault) =>
      var (read, status) := s.pending.value;
      if fault || read.revision != s.stored.revision then s.(pending := None)
      else Store(s.(pending := None), Object(status, s.stored.revision + 1))
    case Restart => s.(pending := None, w := START)
  }

  ghost predicate IsCreated(s: Sys) {
    && s.stored.inst.generation == 1 && s.stored.inst.observedGeneration == 0 && s.stored.inst.uuid == ""
    && s.stored.revision == 0 && s.past == {s.stored} && s.pending.None? && s.w == START
  }

  ghost predicate IsRun(ss: seq<Sys>, es: seq<Event>) {
    && |ss| == |es| + 1 && IsCreated(ss[0])
    && forall i :: 0 <= i < |es| ==> Enabled(ss[i], es[i]) && ss[i + 1] == Next(ss[i], es[i])
  }

  /* ----- The steps are those of the state machine ----- */

  ghost predicate Counted(o: Object) {
    o.inst.generation >= 0 && o.inst.observedGeneration >= 0
  }

  ghost function VersionOf(o: Object): SW.Version
    requires Counted(o)
  {
    SW.Version(o.inst.generation, o.inst.observedGeneration, o.inst.uuid, o.revision)
  }

  // The object as the controller's memory has it.
  ghost predicate InTable(s: Sys, v: SW.Version) {
    var k := InstName(s.stored.inst);
    && k in s.w.t.insts && s.w.t.insts[k].uuid == v.uuid
    && s.w.t.insts[k].generation == v.generation && s.w.t.insts[k].observedGeneration == v.observed
  }

  ghost predicate Matches(s: Sys, m: SW.State) {
    && Counted(s.stored) && VersionOf(s.stored) == m.stored
    && (forall o :: o in s.past ==> Counted(o) && VersionOf(o) in m.past && InstName(o.inst) == InstName(s.stored.inst))
    && (s.pending.None? <==> m.flight.None?)
    && (s.pending.Some? ==>
          var (read, status) := s.pending.value;
          && Counted(read) && VersionOf(read) == m.flight.value.read && InstName(status) == InstName(s.stored.inst)
          && status.uuid == m.flight.value.uuid && status.generation == read.inst.generation
          && status.observedGeneration == read.inst.generation)
    && (m.table.None? ==> InstName(s.stored.inst) !in s.w.t.insts)
    && (m.table.Some? ==> InTable(s, m.table.value))
  }

  ghost function Image(e: Event): SW.Event
    requires e.Begin? ==> Counted(e.read)
  {
    match e
    case EditSpec(_) => SW.EditSpec
    case EditOther => SW.EditOther
    case Begin(read, newUuid, _) => SW.Begin(VersionOf(read), newUuid)
    case Finish(fault) => SW.Finish(fault)
    case Restart => SW.Restart
  }

  // What a reconcile stores, and the status it is to write, are those of the machine's Begin.
  lemma BeginMatches(s: Sys, m: SW.State, e: Event)
    requires Matches(s, m) && Enabled(s, e) && e.Begin?
    ensures SW.Enabled(m, Image(e)) && Matches(Next(s, e), SW.Next(m, Image(e)))
  {
  }

  lemma StepMatches(s: Sys, m: SW.State, e: Event)
    requires Matches(s, m) && Enabled(s, e)
    ensures (e.Begin? ==> Counted(e.read)) && SW.Enabled(m, Image(e)) && Matches(Next(s, e), SW.Next(m, Image(e)))
  {
    if e.Begin? { BeginMatches(s, m, e); }
  }

  lemma {:induction false} Simulates(ss: seq<Sys>, es: seq<Event>, n: nat) returns (ms: seq<SW.State>,
                                     images: seq<SW.Event>)
    requires IsRun(ss, es) && n < |ss|
    ensures SW.IsRun(ms, images) && |ms| == n + 1
    ensures forall i :: 0 <= i <= n ==> Matches(ss[i], ms[i])
  {
    if n == 0 {
      ms, images := [SW.INIT], [];
    } else {
      ms, images := Simulates(ss, es, n - 1);
      StepMatches(ss[n - 1], ms[n - 1], es[n - 1]);
      ms, images := ms + [SW.Next(ms[n - 1], Image(es[n - 1]))], images + [Image(es[n - 1])];
    }
  }

  // So over every run of the reconciler: a stored UUID never changes, it is there once anything
  // was observed, the observed generation neither passes the generation nor falls, and no
  // instance is in memory without a UUID.
  lemma ReconciledUuidIsWrittenOnce(ss: seq<Sys>, es: seq<Event>, m: nat, n: nat)
    requires IsRun(ss, es) && m <= n < |ss|
    ensures ss[m].stored.inst.uuid != "" ==> ss[n].stored.inst.uuid == ss[m].stored.inst.uuid
    ensures ss[n].stored.inst.observedGeneration > 0 ==> ss[n].stored.inst.uuid != ""
    ensures ss[m].stored.inst.observedGeneration <= ss[n].stored.inst.observedGeneration <= ss[n].stored.inst.generation
    ensures var k := InstName(ss[n].stored.inst); k in ss[n].w.t.insts ==> ss[n].w.t.insts[k].uuid != ""
  {
    var ms, images := Simulates(ss, es, n);
    SW.UuidIsWrittenOnce(ms, images, m, n);
    assert Matches(ss[m], ms[m]) && Matches(ss[n], ms[n]);
  }
}
