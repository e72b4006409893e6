/** Review, batch promotion and training over one tenant's tables: what a training run captures, what it
    records when it completes, and what that does to the accumulation figure. */
module TrainingConsumption {

  import opened Wrappers
  import opened Accumulation

  datatype Scope = Manual | Automated | Import

  /** One execution of the training task. `trained`: the spans its export carried. `Marked`: the job reads
      `completed`, and the transaction that records the spans is still to come. */
  datatype Phase = Exported | Captured(spans: set<nat>) | Marked(spans: set<nat>) | Ended
  datatype Run = Run(job: string, scope: Option<Scope>, trained: set<nat>, phase: Phase)

  /** A recorded completion, in the order the transactions committed. */
  datatype Completion = Completion(run: nat, spans: set<nat>, entry: Consumption)

  datatype World = World(tables: Tables, runs: map<nat, Run>, log: seq<Completion>)

  datatype Event =
    | Confirm(document: string, entityType: string, predictedBy: string, byBase: bool)
    | Promote(document: string, entityType: string)
    | Annotate(document: string, entityType: string)
    | Edit(span: nat, entityType: string)
    | Delete(span: nat)
    | SetText(withText: set<string>)
    | SetVersions(versions: seq<ModelVersion>)
    | SetStatus(job: string, status: string)
    | Start(run: nat, job: string, scope: Option<Scope>)
    | Capture(run: nat)
    | MarkCompleted(run: nat)
    | Record(run: nat, version: int, late: bool)
    | Fail(run: nat)

  // ----- review -----

  function AddSpan(t: Tables, document: string, entityType: string): Tables {
    t.(spans := t.spans[t.nextSpan := Span(document, entityType)], nextSpan := t.nextSpan + 1)
  }

  /** `delete_span` deletes the span; the rows that refer to it go with it only by a foreign key. */
  function DeleteSpan(t: Tables, id: nat): Tables {
    if t.hasForeignKeys
    then t.(spans := t.spans - {id}, reviews := t.reviews - {id}, promoted := t.promoted - {id}, consumed := t.consumed - {id})
    else t.(spans := t.spans - {id})
  }

  // ----- training -----

  function DatasetSpans(t: Tables): set<nat> {
    set id | id in t.spans && t.spans[id].document in t.withText
  }

  /** The spans an export of that scope carries. */
  function ExportedSpans(t: Tables, scope: Option<Scope>): set<nat> {
    match scope
    case None => DatasetSpans(t)
    case Some(Manual) => DatasetSpans(t) - t.promoted
    case Some(Automated) => DatasetSpans(t) * t.promoted
    case Some(Import) => {}
  }

  /** The first run to consume a span keeps it. */
  function Recorded(consumed: map<nat, Consumption>, ids: set<nat>, entry: Consumption): map<nat, Consumption> {
    map id | id in consumed.Keys + ids :: if id in consumed then consumed[id] else entry
  }

  function SetJob(t: Tables, job: string, status: string): Tables {
    if job in t.jobs then t.(jobs := t.jobs[job := status]) else t
  }

  /** Under a foreign key the transaction goes through only while every captured span is still there. */
  predicate Records(t: Tables, ids: set<nat>) {
    t.hasForeignKeys ==> ids <= t.spans.Keys
  }

  /** The recording transaction, and what an error in it or after it (`late`) makes of the job. */
  function Completed(w: World, run: nat, version: int, late: bool): World
    requires run in w.runs && w.runs[run].phase.Marked?
  {
    var r := w.runs[run];
    var ids, entry := r.phase.spans, Consumption(version, r.job);
    var runs := w.runs[run := r.(phase := Ended)];
    if Records(w.tables, ids) then
      var tables := w.tables.(consumed := Recorded(w.tables.consumed, ids, entry));
      World(if late then SetJob(tables, r.job, "failed") else tables, runs, w.log + [Completion(run, ids, entry)])
    else
      World(SetJob(w.tables, r.job, "failed"), runs, w.log)
  }

  function Step(w: World, e: Event): World {
    var t := w.tables;
    match e
    case Confirm(d, et, v, byBase) =>
      w.(tables := AddSpan(t, d, et).(reviews := t.reviews[t.nextSpan := Review(v, byBase)]))
    case Promote(d, et) => w.(tables := AddSpan(t, d, et).(promoted := t.promoted + {t.nextSpan}))
    case Annotate(d, et) => w.(tables := AddSpan(t, d, et))
    case Edit(id, et) =>
      if id in t.spans then w.(tables := t.(spans := t.spans[id := t.spans[id].(entityType := et)])) else w
    case Delete(id) => w.(tables := DeleteSpan(t, id))
    case SetText(ds) => w.(tables := t.(withText := ds))
    case SetVersions(vs) => w.(tables := t.(versions := vs))
    case SetStatus(job, status) => w.(tables := t.(jobs := t.jobs[job := status]))
    case Start(run, job, scope) =>
      if run in w.runs || job !in t.jobs || t.jobs[job] in ["completed", "failed", "cancelled"] then w
      else w.(tables := SetJob(t, job, "running"), runs := w.runs[run := Run(job, scope, ExportedSpans(t, scope), Exported)])
    case Capture(run) =>
      if run in w.runs && w.runs[run].phase.Exported?
      then w.(runs := w.runs[run := w.runs[run].(phase := Captured(DatasetSpans(t)))])
      else w
    case MarkCompleted(run) =>
      if run in w.runs && w.runs[run].phase.Captured?
      then w.(tables := SetJob(t, w.runs[run].job, "completed"),
              runs := w.runs[run := w.runs[run].(phase := Marked(w.runs[run].phase.spans))])
      else w
    case Record(run, version, late) =>
      if run in w.runs && w.runs[run].phase.Marked? then Completed(w, run, version, late) else w
    case Fail(run) =>
      if run in w.runs && !w.runs[run].phase.Ended?
      then w.(tables := SetJob(t, w.runs[run].job, "failed"), runs := w.runs[run := w.runs[run].(phase := Ended)])
      else w
  }

  function Steps(w: World, es: seq<Event>): World
    decreases |es|
  {
    if es == [] then w else Step(Steps(w, es[..|es| - 1]), es[|es| - 1])
  }

  predicate Initial(w: World) {
    w.runs == map[] && w.log == [] && w.tables.spans == map[] && w.tables.reviews == map[] && w.tables.promoted == {}
    && w.tables.consumed == map[]
  }

  function Ids(ids: seq<nat>): set<nat> {
    set id | id in ids
  }

  /** The connection the training worker records through. */
  class TrainingSession {
    var tables: Tables

    constructor (tables: Tables)
      ensures this.tables == tables
    {
      this.tables := tables;
    }

    /** One INSERT a span, skipping those already recorded; under a foreign key a span that is gone fails the
        transaction and nothing of it stays. */
    method RecordConsumedSpans(ids: seq<nat>, version: int, job: string) returns (ok: bool)
      modifies this
      ensures ok <==> Records(tables, Ids(ids))
      ensures tables == if ok
                        then old(tables).(consumed := Recorded(old(tables).consumed, Ids(ids), Consumption(version, job)))
                        else old(tables)
    {
      var consumed := tables.consumed;
      for i := 0 to |ids|
        invariant tables == old(tables)
        invariant tables.hasForeignKeys ==> forall j :: 0 <= j < i ==> ids[j] in tables.spans
        invariant consumed == Recorded(tables.consumed, Ids(ids[..i]), Consumption(version, job))
      {
        if tables.hasForeignKeys && ids[i] !in tables.spans {
          return false;
        }
        assert ids[..i + 1] == ids[..i] + [ids[i]];
        if ids[i] !in consumed {
          consumed := consumed[ids[i] := Consumption(version, job)];
        }
      }
      assert ids[..|ids|] == ids;
      tables := tables.(consumed := consumed);
      return true;
    }
  }

  // ----- what always holds -----

  /** The captured spans of some recorded completion. */
  function Consumers(log: seq<Completion>, id: nat): seq<Completion> {
    if log == [] then []
    else if id in log[0].spans then [log[0]] + Consumers(log[1..], id)
    else Consumers(log[1..], id)
  }

  lemma {:induction false} ConsumersSnoc(log: seq<Completion>, c: Completion, id: nat)
    ensures Consumers(log + [c], id) == Consumers(log, id) + if id in c.spans then [c] else []
  {
    if log != [] {
      assert (log + [c])[0] == log[0] && (log + [c])[1..] == log[1..] + [c];
      ConsumersSnoc(log[1..], c, id);
    }
  }

  /** A span is recorded exactly when a completed run captured it, and the record names the first. */
  predicate Ledger(w: World, id: nat) {
    var cs := Consumers(w.log, id);
    (id in w.tables.consumed <==> cs != []) && (cs != [] ==> w.tables.consumed[id] == cs[0].entry)
  }

  predicate Keyed(t: Tables) {
    && (forall id :: id in t.spans ==> id < t.nextSpan)
    && (forall id :: id in t.reviews ==> id < t.nextSpan)
    && (forall id :: id in t.promoted ==> id < t.nextSpan)
    && (forall id :: id in t.consumed ==> id < t.nextSpan)
    && t.reviews.Keys !! t.promoted
    && (t.hasForeignKeys ==> t.consumed.Keys <= t.spans.Keys)
  }

  /** No identifier yet to be given is in any captured set. */
  predicate Below(w: World) {
    && (forall i, id :: 0 <= i < |w.log| && id in w.log[i].spans ==> id < w.tables.nextSpan)
    && (forall r, id :: r in w.runs && (w.runs[r].phase.Captured? || w.runs[r].phase.Marked?) && id in w.runs[r].phase.spans ==>
          id < w.tables.nextSpan)
  }

  /** Where the ledger is exact: of every span, or with foreign keys of those that still exist. */
  predicate Accounted(t: Tables, id: nat) {
    t.hasForeignKeys ==> id in t.spans
  }

  ghost predicate Sound(w: World) {
    Keyed(w.tables) && Below(w) && forall id :: Accounted(w.tables, id) ==> Ledger(w, id)
  }

  lemma {:induction false} NoConsumer(log: seq<Completion>, id: nat)
    requires forall i :: 0 <= i < |log| ==> id !in log[i].spans
    ensures Consumers(log, id) == []
  {
    if log != [] { NoConsumer(log[1..], id); }
  }

  lemma StepLedger(w: World, e: Event, id: nat)
    requires Sound(w) && Accounted(Step(w, e).tables, id)
    ensures Ledger(Step(w, e), id)
  {
    var after := Step(w, e);
    if e.Record? {
      assert Ledger(w, id);
      if after.log != w.log { ConsumersSnoc(w.log, after.log[|w.log|], id); }
    } else if id == w.tables.nextSpan {
      NoConsumer(w.log, id);
    } else {
      assert Ledger(w, id) && after.log == w.log;
      assert id in after.tables.consumed <==> id in w.tables.consumed;
    }
  }

  lemma StepKeyed(w: World, e: Event)
    requires Keyed(w.tables) && Below(w)
    ensures Keyed(Step(w, e).tables)
  {
  }

  lemma StepBelow(w: World, e: Event)
    requires Keyed(w.tables) && Below(w)
    ensures Below(Step(w, e))
  {
  }

  lemma StepSound(w: World, e: Event)
    requires Sound(w)
    ensures Sound(Step(w, e))
  {
    StepKeyed(w, e);
    StepBelow(w, e);
    forall id | Accounted(Step(w, e).tables, id) ensures Ledger(Step(w, e), id) { StepLedger(w, e, id); }
  }

  lemma {:induction false} AlwaysSound(w: World, es: seq<Event>)
    requires Initial(w)
    ensures Sound(Steps(w, es))
    decreases |es|
  {
    if es != [] {
      AlwaysSound(w, es[..|es| - 1]);
      StepSound(Steps(w, es[..|es| - 1]), es[|es| - 1]);
    }
  }

  lemma SoundCounts(w: World, v: string)
    requires Sound(w)
    ensures forall id :: id in Counted(w.tables, v) <==>
              && id in w.tables.spans && id in w.tables.reviews && w.tables.reviews[id] == Review(v, false)
              && Consumers(w.log, id) == []
    ensures forall id :: id in w.tables.consumed ==>
              Consumers(w.log, id) != [] && w.tables.consumed[id] == Consumers(w.log, id)[0].entry
  {
    forall id | id in w.tables.consumed ensures Ledger(w, id) { assert Accounted(w.tables, id); }
    forall id | id in w.tables.spans && id in w.tables.reviews
      ensures id in Counted(w.tables, v) <==> w.tables.reviews[id] == Review(v, false) && Consumers(w.log, id) == []
    {
      assert Accounted(w.tables, id) && Ledger(w, id);
    }
  }

  /** The figure is a delta: after any run of events, deletions included and with foreign keys or without, it
      counts exactly the existing spans reviewed against the version that no recorded run has captured; and a
      consumed span names the first that did. */
  lemma FigureIsDelta(w: World, es: seq<Event>, v: string)
    requires Initial(w)
    ensures var after := Steps(w, es);
            && (forall id :: id in Counted(after.tables, v) <==>
                  && id in after.tables.spans && id in after.tables.reviews && after.tables.reviews[id] == Review(v, false)
                  && Consumers(after.log, id) == [])
            && forall id :: id in after.tables.consumed ==>
                 Consumers(after.log, id) != [] && after.tables.consumed[id] == Consumers(after.log, id)[0].entry
  {
    AlwaysSound(w, es);
    var after := Steps(w, es);
    SoundCounts(after, v);
  }

  lemma ConfirmMoves(w: World, document: string, entityType: string, predictedBy: string, byBase: bool, v: string)
    requires Keyed(w.tables)
    ensures Counted(Step(w, Confirm(document, entityType, predictedBy, byBase)).tables, v) ==
            Counted(w.tables, v) + if predictedBy == v && !byBase then {w.tables.nextSpan} else {}
  {
  }

  lemma RecordMoves(w: World, run: nat, version: int, late: bool, v: string)
    requires Keyed(w.tables) && run in w.runs && w.runs[run].phase.Marked?
    ensures Counted(Step(w, Record(run, version, late)).tables, v) ==
            Counted(w.tables, v) - if Records(w.tables, w.runs[run].phase.spans) then w.runs[run].phase.spans else {}
  {
  }

  /** What moves the figure: a confirmation adds its span, if that version of the tenant's model predicted it; a
      deletion takes one away; a recorded completion takes the spans it captured; nothing else changes it. */
  lemma FigureMovesBy(w: World, e: Event, v: string)
    requires Keyed(w.tables)
    ensures Counted(Step(w, e).tables, v) ==
            match e
            case Confirm(_, _, predictedBy, byBase) => Counted(w.tables, v) + (if predictedBy == v && !byBase then {w.tables.nextSpan} else {})
            case Delete(id) => Counted(w.tables, v) - {id}
            case Record(run, _, _) =>
              Counted(w.tables, v) - (if run in w.runs && w.runs[run].phase.Marked? && Records(w.tables, w.runs[run].phase.spans)
                                      then w.runs[run].phase.spans else {})
            case _ => Counted(w.tables, v)
  {
    match e {
      case Confirm(document, entityType, predictedBy, byBase) => ConfirmMoves(w, document, entityType, predictedBy, byBase, v);
      case Record(run, version, late) =>
        if run in w.runs && w.runs[run].phase.Marked? { RecordMoves(w, run, version, late, v); }
      case _ =>
    }
  }

  /** No span is both reviewed and promoted from a batch, so the figure's automated part is always zero. */
  lemma AutomatedIsAlwaysZero(w: World, es: seq<Event>, v: string)
    requires Initial(w)
    ensures Matching(Steps(w, es).tables, OfSource(v, true)) == {}
    ensures Matching(Steps(w, es).tables, OfSource(v, false)) == Counted(Steps(w, es).tables, v)
  {
    AlwaysSound(w, es);
  }

  // ----- one training run -----

  predicate Holds(w: World, run: nat, ids: set<nat>) {
    run in w.runs && w.runs[run].phase in {Captured(ids), Marked(ids), Ended}
  }

  /** What a run captured does not change under it, and identifiers are only ever new. */
  lemma {:induction false} CaptureHeld(w: World, es: seq<Event>, run: nat, ids: set<nat>)
    requires Holds(w, run, ids)
    ensures Holds(Steps(w, es), run, ids)
    decreases |es|
  {
    if es != [] { CaptureHeld(w, es[..|es| - 1], run, ids); }
  }

  lemma CompletionLowers(w: World, run: nat, ids: set<nat>, version: int, late: bool, v: string)
    requires run in w.runs && w.runs[run].phase == Marked(ids)
    ensures var after := Step(w, Record(run, version, late));
            if Records(w.tables, ids) then Counted(after.tables, v) == Counted(w.tables, v) - ids
            else Counted(after.tables, v) == Counted(w.tables, v) && after.tables.consumed == w.tables.consumed
  {
    var after := Step(w, Record(run, version, late));
    assert after.tables.reviews == w.tables.reviews && after.tables.spans == w.tables.spans && after.tables.promoted == w.tables.promoted;
    if Records(w.tables, ids) {
      assert Candidates(after.tables) == Candidates(w.tables) - ids;
    }
  }

  /** A completing run lowers the figure by exactly the counted spans it captured at export: the others,
      every span confirmed while it ran among them, stay counted. Only where a foreign key is held against a
      captured span that is gone by then does it record nothing. */
  lemma CompletionLowersByCaptured(w: World, run: nat, es: seq<Event>, before: World, version: int, late: bool, v: string)
    requires forall id :: id in w.tables.spans ==> id < w.tables.nextSpan
    requires run in w.runs && w.runs[run].phase.Exported?
    requires before == Steps(Step(w, Capture(run)), es) && run in before.runs && before.runs[run].phase.Marked?
    ensures var ids := DatasetSpans(w.tables);
            var after := Step(before, Record(run, version, late));
            if !before.tables.hasForeignKeys || ids <= before.tables.spans.Keys then
              && Counted(after.tables, v) == Counted(before.tables, v) - ids
              && |Counted(after.tables, v)| == |Counted(before.tables, v)| - |Counted(before.tables, v) * ids|
              && (forall id :: id in Counted(before.tables, v) && id >= w.tables.nextSpan ==> id in Counted(after.tables, v))
            else
              Counted(after.tables, v) == Counted(before.tables, v) && after.tables.consumed == before.tables.consumed
  {
    var ids := DatasetSpans(w.tables);
    CaptureHeld(Step(w, Capture(run)), es, run, ids);
    CompletionLowers(before, run, ids, version, late, v);
    assert |Counted(before.tables, v) - ids| == |Counted(before.tables, v)| - |Counted(before.tables, v) * ids|;
    assert forall id :: id in ids ==> id < w.tables.nextSpan;
  }

  /** A run that fails before its recording transaction leaves every answer of the report as it was. */
  lemma FailedRunChangesNothing(w: World, run: nat, q: Query)
    ensures var after := Step(w, Fail(run)).tables;
            Matching(after, q) == Matching(w.tables, q) && after.consumed == w.tables.consumed && after.versions == w.tables.versions
  {
    var after := Step(w, Fail(run)).tables;
    assert after.reviews == w.tables.reviews && after.spans == w.tables.spans && after.promoted == w.tables.promoted;
  }

  /** What the steps of a run write into its job, and that nothing else but an explicit status change does. */
  lemma JobsWrittenBy(w: World, e: Event)
    ensures var jobs, after := w.tables.jobs, Step(w, e).tables.jobs;
            match e
            case Start(run, job, _) =>
              after == if run !in w.runs && job in jobs && jobs[job] !in {"completed", "failed", "cancelled"}
                       then jobs[job := "running"] else jobs
            case MarkCompleted(run) =>
              after == if run in w.runs && w.runs[run].phase.Captured? && w.runs[run].job in jobs
                       then jobs[w.runs[run].job := "completed"] else jobs
            case Record(run, _, late) =>
              after == if run in w.runs && w.runs[run].phase.Marked? && w.runs[run].job in jobs
                          && (late || !Records(w.tables, w.runs[run].phase.spans))
                       then jobs[w.runs[run].job := "failed"] else jobs
            case Fail(run) =>
              after == if run in w.runs && !w.runs[run].phase.Ended? && w.runs[run].job in jobs
                       then jobs[w.runs[run].job := "failed"] else jobs
            case SetStatus(job, status) => after == jobs[job := status]
            case _ => after == jobs
  {
  }

  lemma StepSpans(w: World, e: Event, id: nat)
    requires id < w.tables.nextSpan
    ensures id < Step(w, e).tables.nextSpan
    ensures id in Step(w, e).tables.spans <==> id in w.tables.spans && e != Delete(id)
  {
  }

  lemma StepStays(w: World, e: Event, id: nat)
    requires id < w.tables.nextSpan
    ensures id < Step(w, e).tables.nextSpan
    ensures id in Step(w, e).tables.spans <==> id in w.tables.spans && e != Delete(id)
    ensures id in Step(w, e).tables.spans ==>
              && Step(w, e).tables.spans[id].document == w.tables.spans[id].document
              && (id in Step(w, e).tables.promoted <==> id in w.tables.promoted)
  {
    StepSpans(w, e, id);
  }

  /** A span that was there is there later exactly if nothing deleted it. */
  lemma {:induction false} StaysUnlessDeleted(w: World, es: seq<Event>, id: nat)
    requires id in w.tables.spans && id < w.tables.nextSpan
    ensures id < Steps(w, es).tables.nextSpan
    ensures id in Steps(w, es).tables.spans <==> Delete(id) !in es
    decreases |es|
  {
    if es != [] {
      var front, e := es[..|es| - 1], es[|es| - 1];
      var mid := Steps(w, front);
      StaysUnlessDeleted(w, front, id);
      StepStays(mid, e, id);
      assert es == front + [e];
    }
  }

  lemma ForeignKeysStep(w: World, e: Event)
    ensures Step(w, e).tables.hasForeignKeys == w.tables.hasForeignKeys
  {
  }

  lemma {:induction false} ForeignKeysStay(w: World, es: seq<Event>)
    ensures Steps(w, es).tables.hasForeignKeys == w.tables.hasForeignKeys
    decreases |es|
  {
    if es != [] {
      ForeignKeysStay(w, es[..|es| - 1]);
      ForeignKeysStep(Steps(w, es[..|es| - 1]), es[|es| - 1]);
    }
  }

  /** Whether a job ends `failed` and whether its spans are recorded are different questions. It records
      unless a foreign key is held against a captured span that was deleted while it ran; without foreign
      keys it records whatever was deleted. An error after the recording transaction marks a run failed that
      has consumed all the same; otherwise the job stays as it was marked. */
  lemma RecordsIff(w: World, run: nat, es: seq<Event>, before: World, version: int, late: bool)
    requires forall id :: id in w.tables.spans ==> id < w.tables.nextSpan
    requires run in w.runs && w.runs[run].phase.Exported?
    requires before == Steps(Step(w, Capture(run)), es) && run in before.runs && before.runs[run].phase.Marked?
    requires before.runs[run].job in before.tables.jobs
    ensures var ids, after, job := DatasetSpans(w.tables), Step(before, Record(run, version, late)), before.runs[run].job;
            var deleted := w.tables.hasForeignKeys && exists id :: id in ids && Delete(id) in es;
            && (after.log != before.log <==> !deleted)
            && (!deleted ==> ids <= after.tables.consumed.Keys)
            && after.tables.jobs == if late || deleted then before.tables.jobs[job := "failed"] else before.tables.jobs
  {
    var ids := DatasetSpans(w.tables);
    CaptureHeld(Step(w, Capture(run)), es, run, ids);
    ForeignKeysStay(Step(w, Capture(run)), es);
    forall id | id in ids ensures id in before.tables.spans <==> Delete(id) !in es {
      StaysUnlessDeleted(Step(w, Capture(run)), es, id);
    }
    CompletedIs(before, run, ids, version, late);
  }

  lemma CompletedIs(w: World, run: nat, ids: set<nat>, version: int, late: bool)
    requires run in w.runs && w.runs[run].phase == Marked(ids) && w.runs[run].job in w.tables.jobs
    ensures var after := Step(w, Record(run, version, late));
            && (after.log != w.log <==> Records(w.tables, ids))
            && (Records(w.tables, ids) ==> ids <= after.tables.consumed.Keys)
            && after.tables.jobs == if late || !Records(w.tables, ids) then w.tables.jobs[w.runs[run].job := "failed"]
                                    else w.tables.jobs
  {
  }

  // ----- completed, and recorded -----

  predicate HasRecorded(w: World, run: nat) {
    exists i :: 0 <= i < |w.log| && w.log[i].run == run
  }

  /** Why the job reads `completed`: a run of it has recorded its spans, or stands before doing so. */
  predicate Justified(w: World, job: string, run: nat) {
    run in w.runs && w.runs[run].job == job && (w.runs[run].phase.Marked? || HasRecorded(w, run))
  }

  ghost predicate JobSound(w: World, job: string) {
    job in w.tables.jobs && w.tables.jobs[job] == "completed" ==> exists run :: Justified(w, job, run)
  }

  lemma StepJobSound(w: World, e: Event, job: string)
    requires JobSound(w, job) && e != SetStatus(job, "completed")
    ensures JobSound(Step(w, e), job)
  {
    var after := Step(w, e);
    assert forall i :: 0 <= i < |w.log| ==> after.log[i] == w.log[i];
    if job in after.tables.jobs && after.tables.jobs[job] == "completed" {
      if e.MarkCompleted? && e.run in w.runs && w.runs[e.run].job == job && w.runs[e.run].phase.Captured? {
        assert Justified(after, job, e.run);
      } else {
        assert job in w.tables.jobs && w.tables.jobs[job] == "completed";
        var run :| Justified(w, job, run);
        if e.Record? && e.run == run && w.runs[run].phase.Marked? { assert after.log[|w.log|].run == run; }
        assert Justified(after, job, run);
      }
    }
  }

  /** A job that no one set to `completed` by hand and that reads so has recorded the spans of a run of it,
      unless one of its runs stands between its two transactions. */
  lemma {:induction false} CompletedHasRecorded(w: World, es: seq<Event>, job: string)
    requires JobSound(w, job) && SetStatus(job, "completed") !in es
    ensures JobSound(Steps(w, es), job)
    ensures var after := Steps(w, es);
            && job in after.tables.jobs && after.tables.jobs[job] == "completed"
            && (forall run :: run in after.runs && after.runs[run].job == job ==> !after.runs[run].phase.Marked?) ==>
              exists run :: run in after.runs && after.runs[run].job == job && HasRecorded(after, run)
    decreases |es|
  {
    if es != [] {
      var front := es[..|es| - 1];
      assert es == front + [es[|es| - 1]];
      CompletedHasRecorded(w, front, job);
      StepJobSound(Steps(w, front), es[|es| - 1], job);
    }
    var after := Steps(w, es);
    if job in after.tables.jobs && after.tables.jobs[job] == "completed" {
      var run :| Justified(after, job, run);
    }
  }

  lemma OthersLeaveRun(w: World, run: nat, e: Event)
    requires run in w.runs && w.runs[run].phase.Marked? && !(e.Record? && e.run == run) && !(e.Fail? && e.run == run)
    ensures run in Step(w, e).runs && Step(w, e).runs[run] == w.runs[run]
    ensures HasRecorded(Step(w, e), run) <==> HasRecorded(w, run)
  {
    var after := Step(w, e);
    if after.log != w.log {
      assert e.Record? && after.log[..|w.log|] == w.log && after.log[|w.log|].run == e.run;
      if i :| 0 <= i < |w.log| && w.log[i].run == run { assert after.log[i].run == run; }
    }
  }

  /** A worker that dies between the two leaves the job completed and nothing recorded: the run takes no
      further step, whatever others do. */
  lemma {:induction false} DeadWorkerNeverRecords(w: World, run: nat, es: seq<Event>)
    requires run in w.runs && w.runs[run].phase.Marked? && !HasRecorded(w, run)
    requires forall e :: e in es ==> !(e.Record? && e.run == run) && !(e.Fail? && e.run == run)
    ensures run in Steps(w, es).runs && Steps(w, es).runs[run] == w.runs[run] && !HasRecorded(Steps(w, es), run)
    decreases |es|
  {
    if es != [] {
      var front := es[..|es| - 1];
      assert es[|es| - 1] in es;
      DeadWorkerNeverRecords(w, run, front);
      OthersLeaveRun(Steps(w, front), run, es[|es| - 1]);
    }
  }

  /** And no redelivery repairs it: a completed job is not started again. */
  lemma RedeliveryIsSkipped(w: World, run: nat, job: string, scope: Option<Scope>)
    requires job in w.tables.jobs
    ensures Step(w, Start(run, job, scope)) == w <==> run in w.runs || w.tables.jobs[job] in ["completed", "failed", "cancelled"]
  {
    var after := Step(w, Start(run, job, scope));
    if run !in w.runs && w.tables.jobs[job] !in ["completed", "failed", "cancelled"] { assert run in after.runs; }
  }

  // ----- what was trained on and what is recorded -----

  predicate Starts(w: World, run: nat, job: string) {
    run !in w.runs && job in w.tables.jobs && w.tables.jobs[job] !in ["completed", "failed", "cancelled"]
  }

  predicate InScope(scope: Option<Scope>, fromBatch: bool) {
    match scope
    case None => true
    case Some(Manual) => !fromBatch
    case Some(Automated) => fromBatch
    case Some(Import) => false
  }

  /** The job, the scope and the export of a run stay as they were when it started. */
  lemma {:induction false} ExportHeld(w: World, es: seq<Event>, run: nat)
    requires run in w.runs
    ensures run in Steps(w, es).runs
    ensures Steps(w, es).runs[run].trained == w.runs[run].trained && Steps(w, es).runs[run].scope == w.runs[run].scope
    decreases |es|
  {
    if es != [] { ExportHeld(w, es[..|es| - 1], run); }
  }

  /** A span that existed keeps its document and its origin for as long as it exists. */
  lemma {:induction false} OriginKept(w: World, es: seq<Event>, id: nat)
    requires id < w.tables.nextSpan
    ensures id < Steps(w, es).tables.nextSpan
    ensures id in Steps(w, es).tables.spans ==>
              && id in w.tables.spans && Steps(w, es).tables.spans[id].document == w.tables.spans[id].document
              && (id in Steps(w, es).tables.promoted <==> id in w.tables.promoted)
    decreases |es|
  {
    if es != [] {
      var front := es[..|es| - 1];
      OriginKept(w, front, id);
      StepStays(Steps(w, front), es[|es| - 1], id);
    }
  }

  /** The span was there to be exported: it is older than the export, its document had text then, and the
      scope admits it. */
  predicate WasExportable(w: World, scope: Option<Scope>, at: World, id: nat) {
    && id in at.tables.spans
    && id < w.tables.nextSpan && at.tables.spans[id].document in w.tables.withText && InScope(scope, id in at.tables.promoted)
  }

  lemma ExportedIff(w: World, scope: Option<Scope>, from: World, es: seq<Event>, id: nat)
    requires (forall i :: i in w.tables.spans ==> i < w.tables.nextSpan) && id in Steps(from, es).tables.spans
    requires from.tables.spans == w.tables.spans && from.tables.promoted == w.tables.promoted
    requires from.tables.nextSpan == w.tables.nextSpan
    ensures id in ExportedSpans(w.tables, scope) <==> WasExportable(w, scope, Steps(from, es), id)
  {
    if id < w.tables.nextSpan { OriginKept(from, es, id); }
  }

  /** Between its export and the capture of its spans a run lets others work. What it captures, and will
      record, is among what it was trained on exactly if every captured span was there to be exported: none
      was confirmed, given text, or out of scope in between. */
  lemma CapturedWasTrainedIff(w: World, run: nat, job: string, scope: Option<Scope>, es: seq<Event>, at: World)
    requires (forall id :: id in w.tables.spans ==> id < w.tables.nextSpan) && Starts(w, run, job)
    requires at == Steps(Step(w, Start(run, job, scope)), es) && run in at.runs && at.runs[run].phase.Exported?
    ensures var ids := DatasetSpans(at.tables); var captured := Step(at, Capture(run)).runs[run];
            && captured.phase == Captured(ids) && captured.trained == ExportedSpans(w.tables, scope)
            && (ids <= captured.trained <==> forall id :: id in ids ==> WasExportable(w, scope, at, id))
  {
    var started := Step(w, Start(run, job, scope));
    ExportHeld(started, es, run);
    forall id | id in DatasetSpans(at.tables)
      ensures id in ExportedSpans(w.tables, scope) <==> WasExportable(w, scope, at, id)
    {
      ExportedIff(w, scope, started, es, id);
    }
  }

  /** So it is of the recorded completion itself, whatever happens until then. */
  lemma RecordedWasTrainedIff(w: World, run: nat, job: string, scope: Option<Scope>, es: seq<Event>, at: World,
                              fs: seq<Event>, before: World, version: int, late: bool)
    requires (forall id :: id in w.tables.spans ==> id < w.tables.nextSpan) && Starts(w, run, job)
    requires at == Steps(Step(w, Start(run, job, scope)), es) && run in at.runs && at.runs[run].phase.Exported?
    requires before == Steps(Step(at, Capture(run)), fs) && run in before.runs && before.runs[run].phase.Marked?
    requires Records(before.tables, before.runs[run].phase.spans)
    ensures var after := Step(before, Record(run, version, late));
            && |after.log| == |before.log| + 1 && after.log[|before.log|].spans == DatasetSpans(at.tables)
            && run in after.runs && after.runs[run].trained == ExportedSpans(w.tables, scope)
            && (after.log[|before.log|].spans <= after.runs[run].trained <==>
                  forall id :: id in DatasetSpans(at.tables) ==> WasExportable(w, scope, at, id))
  {
    CapturedWasTrainedIff(w, run, job, scope, es, at);
    CaptureHeld(Step(at, Capture(run)), fs, run, DatasetSpans(at.tables));
    ExportHeld(Step(at, Capture(run)), fs, run);
  }

  /** A span confirmed between the two reads is recorded, and the run never saw it. */
  lemma ConfirmedInBetweenIsUntrained(w: World, run: nat, job: string, scope: Option<Scope>,
                                      document: string, entityType: string, predictedBy: string, byBase: bool)
    requires (forall id :: id in w.tables.spans ==> id < w.tables.nextSpan) && Starts(w, run, job) && document in w.tables.withText
    ensures var at := Step(Step(w, Start(run, job, scope)), Confirm(document, entityType, predictedBy, byBase));
            var captured := Step(at, Capture(run)).runs[run];
            && captured.phase == Captured(DatasetSpans(at.tables))
            && w.tables.nextSpan in DatasetSpans(at.tables) && w.tables.nextSpan !in captured.trained
  {
  }

  /** Even with nothing in between, what is captured is what is trained on only for an unscoped run, or when
      the scope happens to shut nothing out: otherwise spans the run never saw are recorded as consumed. */
  lemma CapturedIsTrainedIff(t: Tables, scope: Option<Scope>)
    ensures ExportedSpans(t, scope) <= DatasetSpans(t)
    ensures ExportedSpans(t, scope) == DatasetSpans(t) <==>
              match scope
              case None => true
              case Some(Manual) => DatasetSpans(t) !! t.promoted
              case Some(Automated) => DatasetSpans(t) <= t.promoted
              case Some(Import) => DatasetSpans(t) == {}
  {
    if scope == Some(Manual) && ExportedSpans(t, scope) == DatasetSpans(t) {
      forall id | id in DatasetSpans(t) ensures id !in t.promoted { assert id in ExportedSpans(t, scope); }
    }
    if scope == Some(Automated) && ExportedSpans(t, scope) == DatasetSpans(t) {
      forall id | id in DatasetSpans(t) ensures id in t.promoted { assert id in ExportedSpans(t, scope); }
    }
  }

  lemma TrainedAtOnce(w: World, run: nat, version: int, v: string)
    requires run in w.runs && w.runs[run].phase.Exported?
    ensures var after := Step(Step(Step(w, Capture(run)), MarkCompleted(run)), Record(run, version, false));
            && Counted(after.tables, v) == Counted(w.tables, v) - DatasetSpans(w.tables)
            && after.tables.spans == w.tables.spans && after.tables.withText == w.tables.withText
  {
  }

  /** A run scoped to imports trains on no span, yet its completion takes every reviewed span that has
      text off the figure. */
  lemma ImportRunConsumesReviews(w: World, run: nat, job: string, version: int, v: string)
    requires run !in w.runs && job in w.tables.jobs && w.tables.jobs[job] == "queued"
    ensures var started := Step(w, Start(run, job, Some(Import)));
            var after := Step(Step(Step(started, Capture(run)), MarkCompleted(run)), Record(run, version, false));
            && run in started.runs && started.runs[run].trained == {}
            && Counted(after.tables, v) == Counted(w.tables, v) - DatasetSpans(w.tables)
  {
    var started := Step(w, Start(run, job, Some(Import)));
    TrainedAtOnce(started, run, version, v);
    assert Candidates(started.tables) == Candidates(w.tables);
    assert Counted(started.tables, v) == Counted(w.tables, v);
  }
}
