// One HelxInst against the API server: reads that may be stale, status writes that may fail or
// conflict, edits by others, restarts. What becomes of its UUID, and how often it is derived.
module StatusWrites {
  import opened Resources

  // A stored version of the resource.
  datatype Version = Version(generation: nat, observed: nat, uuid: string, revision: nat)

  // A reconcile that took the full path and has its status still to write; `read` is the
  // version it began from.
  datatype Flight = Flight(read: Version, uuid: string)

  // `past` holds every version ever stored; any of them may be what a read finds.
  // `table` is the instance's entry in the controller's memory.
  datatype State = State(stored: Version, past: set<Version>, flight: Option<Flight>, table: Option<Version>,
                         full: nat, failed: nat, labelled: set<string>)

  datatype Event =
    | EditSpec                                    // a new generation
    | EditOther                                   // labels, annotations: a new revision only
    | Begin(read: Version, newUuid: string)       // fetch, gate, and either the short or the full path
    | Finish(fault: bool)                         // the deferred status write
    | Restart

  predicate Enabled(s: State, e: Event) {
    match e
    case Begin(read, newUuid) => s.flight.None? && read in s.past && newUuid != ""
    case Finish(_) => s.flight.Some?
    case _ => true
  }

  function Store(s: State, v: Version): State {
    s.(stored := v, past := s.past + {v})
  }

  function Next(s: State, e: Event): State
    requires Enabled(s, e)
  {
    match e
    case EditSpec => Store(s, s.stored.(generation := s.stored.generation + 1, revision := s.stored.revision + 1))
    case EditOther => Store(s, s.stored.(revision := s.stored.revision + 1))
    case Begin(read, newUuid) =>
      if read.observed >= read.generation then s.(table := Some(read))
      else
        var uuid := if read.uuid == "" then newUuid else read.uuid;
        s.(table := Some(read.(uuid := uuid)), flight := Some(Flight(read, uuid)),
           full := s.full + 1, labelled := s.labelled + {uuid})
    case Finish(fault) =>
      var f := s.flight.value;
      if fault || f.read.revision != s.stored.revision then s.(flight := None, failed := s.failed + 1)
      else Store(s.(flight := None), Version(f.read.generation, f.read.generation, f.uuid, s.stored.revision + 1))
    case Restart =>
      s.(flight := None, table := None, failed := s.failed + if s.flight.Some? then 1 else 0)
  }

  const CREATED := Version(1, 0, "", 0)

  const INIT := State(CREATED, {CREATED}, None, None, 0, 0, {})

  ghost predicate IsRun(ss: seq<State>, es: seq<Event>) {
    && |ss| == |es| + 1 && ss[0] == INIT
    && forall i :: 0 <= i < |es| ==> Enabled(ss[i], es[i]) && ss[i + 1] == Next(ss[i], es[i])
  }

  /* ----- The invariant ----- */

  ghost predicate GoodVersion(v: Version) {
    1 <= v.generation && v.observed <= v.generation && (v.observed > 0 ==> v.uuid != "")
  }

  // `v` was stored no later than `w`.
  ghost predicate NoLater(v: Version, w: Version) {
    && v.generation <= w.generation && v.observed <= w.observed && v.revision <= w.revision
    && (v.uuid != "" ==> v.uuid == w.uuid)
    && (v.revision == w.revision ==> v == w)
  }

  ghost predicate Inv(s: State) {
    && s.stored in s.past
    && (forall v :: v in s.past ==> GoodVersion(v) && NoLater(v, s.stored))
    && (s.flight.Some? ==>
          && s.flight.value.read in s.past && s.flight.value.read.observed < s.flight.value.read.generation
          && s.flight.value.uuid != ""
          && (s.flight.value.read.uuid != "" ==> s.flight.value.uuid == s.flight.value.read.uuid))
    && (s.table.Some? ==> s.table.value.uuid != "")
    && s.full <= s.stored.observed + s.failed + if s.flight.Some? then 1 else 0
  }

  lemma InvStep(s: State, e: Event)
    requires Inv(s) && Enabled(s, e)
    ensures Inv(Next(s, e))
    ensures NoLater(s.stored, Next(s, e).stored)
  {
  }

  lemma {:induction false} InvHolds(ss: seq<State>, es: seq<Event>, n: nat)
    requires IsRun(ss, es) && n < |ss|
    ensures Inv(ss[n])
  {
    if n > 0 {
      InvHolds(ss, es, n - 1);
      assert Enabled(ss[n - 1], es[n - 1]);
      InvStep(ss[n - 1], es[n - 1]);
    }
  }

  lemma {:induction false} Later(ss: seq<State>, es: seq<Event>, m: nat, n: nat)
    requires IsRun(ss, es) && m <= n < |ss|
    ensures NoLater(ss[m].stored, ss[n].stored)
    decreases n - m
  {
    if m < n {
      Later(ss, es, m, n - 1);
      InvHolds(ss, es, n - 1);
      assert Enabled(ss[n - 1], es[n - 1]);
      InvStep(ss[n - 1], es[n - 1]);
    }
  }

  // Over every run: the observed generation never passes the generation and never falls; a
  // stored UUID is there once anything was observed and never changes; and no instance is in
  // memory without one.
  lemma UuidIsWrittenOnce(ss: seq<State>, es: seq<Event>, m: nat, n: nat)
    requires IsRun(ss, es) && m <= n < |ss|
    ensures ss[n].stored.observed <= ss[n].stored.generation
    ensures ss[m].stored.observed <= ss[n].stored.observed
    ensures ss[n].stored.observed > 0 ==> ss[n].stored.uuid != ""
    ensures ss[m].stored.uuid != "" ==> ss[n].stored.uuid == ss[m].stored.uuid
    ensures ss[n].table.Some? ==> ss[n].table.value.uuid != ""
  {
    InvHolds(ss, es, n);
    Later(ss, es, m, n);
  }

  /* ----- Quiescence ----- */

  // What is counted: as full, each reconcile that begins from a version whose generation is not
  // observed; as failed, each status write that was due and did not take place.
  lemma CountsAreRight(s: State, e: Event)
    requires Enabled(s, e)
    ensures Next(s, e).full == s.full + if e.Begin? && e.read.observed < e.read.generation then 1 else 0
    ensures e.Finish? ==>
              var written := !e.fault && s.flight.value.read.revision == s.stored.revision;
              Next(s, e).failed == s.failed + if written then 0 else 1
    ensures e.Restart? ==> Next(s, e).failed == s.failed + if s.flight.Some? then 1 else 0
    ensures !e.Finish? && !e.Restart? ==> Next(s, e).failed == s.failed
  {
  }

  // Each full reconcile is paid for by a generation, or by a status write that did not happen.
  lemma FullReconcilesAreBounded(ss: seq<State>, es: seq<Event>, n: nat)
    requires IsRun(ss, es) && n < |ss|
    ensures ss[n].full <= ss[n].stored.generation + ss[n].failed + if ss[n].flight.Some? then 1 else 0
    ensures ss[n].full <= ss[n].stored.observed + ss[n].failed + if ss[n].flight.Some? then 1 else 0
  {
    InvHolds(ss, es, n);
  }

  // The event a successful status write causes does nothing: reading what was written, the
  // reconcile takes the short path.
  lemma OwnWriteDoesNotDerive(s: State, e: Event, newUuid: string)
    requires Inv(s) && e.Finish? && Enabled(s, e) && Next(s, e).failed == s.failed && newUuid != ""
    ensures var t := Next(s, e);
            && t.stored.observed == t.stored.generation == s.stored.generation
            && Enabled(t, Begin(t.stored, newUuid))
            && Next(t, Begin(t.stored, newUuid)) == t.(table := Some(t.stored))
  {
    assert s.flight.value.read == s.stored;
  }

  // A status write that begins from a version that is no longer the stored one fails.
  lemma StaleReadIsNotWritten(s: State, fault: bool)
    requires Inv(s) && s.flight.Some? && s.flight.value.read != s.stored
    ensures Next(s, Finish(fault)).stored == s.stored && Next(s, Finish(fault)).failed == s.failed + 1
  {
  }

  /* ----- A lost UUID ----- */

  // Objects get labelled with a UUID before it is stored. If the status write fails, the next
  // reconcile makes up another one, and the first labels objects no stored UUID leads to.
  lemma FailedWriteStrandsUuid(first: string, second: string)
    requires first != "" && second != "" && first != second
    ensures exists ss: seq<State>, es: seq<Event> ::
      && IsRun(ss, es) && |es| == 4
      && ss[4].stored.uuid == second && first in ss[4].labelled && ss[4].flight.None?
  {
    var es := [Begin(CREATED, first), Finish(true), Begin(CREATED, second), Finish(false)];
    var s1 := Next(INIT, es[0]);
    var s2 := Next(s1, es[1]);
    var s3 := Next(s2, es[2]);
    var s4 := Next(s3, es[3]);
    var ss := [INIT, s1, s2, s3, s4];
    assert IsRun(ss, es);
  }

  // The UUIDs objects were labelled with that are neither stored nor about to be.
  ghost function Stranded(s: State): set<string> {
    s.labelled - {s.stored.uuid} - if s.flight.Some? then {s.flight.value.uuid} else {}
  }

  // The UUID a status write was to store and did not.
  function Lost(s: State, e: Event): set<string>
    requires Enabled(s, e)
  {
    if s.flight.Some? && Next(s, e).flight.None? && Next(s, e).failed > s.failed then {s.flight.value.uuid} else {}
  }

  lemma StrandedGrowsBy(s: State, e: Event)
    requires Inv(s) && Enabled(s, e) && "" !in s.labelled
    ensures "" !in Next(s, e).labelled && Stranded(Next(s, e)) <= Stranded(s) + Lost(s, e)
  {
  }

  lemma StrandedStep(s: State, e: Event)
    requires Inv(s) && Enabled(s, e) && "" !in s.labelled && |Stranded(s)| <= s.failed
    ensures "" !in Next(s, e).labelled && |Stranded(Next(s, e))| <= Next(s, e).failed
  {
    StrandedGrowsBy(s, e);
    SubsetSize(Stranded(Next(s, e)), Stranded(s) + Lost(s, e));
  }

  // Over every run: each stranded UUID is paid for by a status write that did not happen.
  lemma {:induction false} StrandedUuidsAreBounded(ss: seq<State>, es: seq<Event>, n: nat)
    requires IsRun(ss, es) && n < |ss|
    ensures "" !in ss[n].labelled && |Stranded(ss[n])| <= ss[n].failed
  {
    if n > 0 {
      StrandedUuidsAreBounded(ss, es, n - 1);
      InvHolds(ss, es, n - 1);
      assert Enabled(ss[n - 1], es[n - 1]);
      StrandedStep(ss[n - 1], es[n - 1]);
    }
  }
}
