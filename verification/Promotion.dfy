/** Batch pre-labelling and the automatic promotion of a large batch's suggestions. */
module Promotion {

  import opened Wrappers

  /** What a labelled span says, whichever table holds it. */
  datatype Content = Content(document: string, entityType: string, start: int, end: int, text: string, confidence: real)

  datatype Suggestion = Suggestion(id: nat, content: Content, source: string)
  datatype Span = Span(id: nat, content: Content)
  datatype Provenance = Provenance(span: nat, batch: string, acceptance: nat)
  datatype Acceptance = Acceptance(id: nat, batch: string)
  datatype Notice = Notice(id: nat, batch: string, promoted: nat)

  datatype DocumentStatus = Pending | Succeeded | Failed(error: Option<string>)
  datatype BatchDocument = BatchDocument(batch: string, document: string, status: DocumentStatus)

  /** `eligible`: `training_eligible_at` is set. */
  datatype Batch = Batch(kind: string, status: string, state: string, review: string, eligible: bool)

  /** The database a tenant's annotation tables are in. Document rows are listed by position; `nextId` is the
      supply of fresh identifiers. `hasNotices`: the platform's notification table is there, as it is on the
      platform and not in a tenant-owned store. */
  datatype Store = Store(
    hasNotices: bool,
    batches: map<string, Batch>,
    documents: seq<BatchDocument>,
    suggestions: seq<Suggestion>,
    spans: seq<Span>,
    provenance: seq<Provenance>,
    acceptances: seq<Acceptance>,
    notices: seq<Notice>,
    nextId: nat)

  // ----- queries -----

  function DocumentsOf(ds: seq<BatchDocument>, batch: string): seq<string> {
    if ds == [] then [] else (if ds[0].batch == batch then [ds[0].document] else []) + DocumentsOf(ds[1..], batch)
  }

  function SuggestionsFor(ss: seq<Suggestion>, docs: seq<string>): seq<Suggestion> {
    if ss == [] then []
    else (if ss[0].content.document in docs then [ss[0]] else []) + SuggestionsFor(ss[1..], docs)
  }

  function SuggestionsBeside(ss: seq<Suggestion>, docs: seq<string>): seq<Suggestion> {
    if ss == [] then []
    else (if ss[0].content.document in docs then [] else [ss[0]]) + SuggestionsBeside(ss[1..], docs)
  }

  function WithoutSuggestion(ss: seq<Suggestion>, id: nat): seq<Suggestion> {
    if ss == [] then []
    else (if ss[0].id == id then [] else [ss[0]]) + WithoutSuggestion(ss[1..], id)
  }

  // ----- promotion -----

  /** Insert the span and its provenance, delete the suggestion. */
  function PromoteOne(s: Store, g: Suggestion, batch: string, acceptance: nat): Store {
    s.(spans := s.spans + [Span(s.nextId, g.content)],
       provenance := s.provenance + [Provenance(s.nextId, batch, acceptance)],
       suggestions := WithoutSuggestion(s.suggestions, g.id),
       nextId := s.nextId + 1)
  }

  function PromoteAll(s: Store, gs: seq<Suggestion>, batch: string, acceptance: nat): Store
    decreases |gs|
  {
    if gs == [] then s else PromoteAll(PromoteOne(s, gs[0], batch, acceptance), gs[1..], batch, acceptance)
  }

  predicate Claimable(s: Store, batch: string) {
    batch in s.batches && !s.batches[batch].eligible
  }

  function Claimed(s: Store, batch: string): Store
    requires batch in s.batches
  {
    s.(batches := s.batches[batch := s.batches[batch].(eligible := true, review := "approved")],
       acceptances := s.acceptances + [Acceptance(s.nextId, batch)],
       nextId := s.nextId + 1)
  }

  function Chosen(s: Store, batch: string): seq<Suggestion> {
    SuggestionsFor(s.suggestions, DocumentsOf(s.documents, batch))
  }

  /** What `_auto_promote_large_batch` writes once it has claimed the batch. */
  function Promoting(s: Store, batch: string): Store
    requires Claimable(s, batch)
  {
    var after := PromoteAll(Claimed(s, batch), Chosen(s, batch), batch, s.nextId);
    after.(notices := after.notices + [Notice(after.nextId, batch, |Chosen(s, batch)|)], nextId := after.nextId + 1)
  }

  /** What it makes of the tables; `None` when the notice cannot be written and it raises. */
  function AutoPromoted(s: Store, batch: string): Option<Store> {
    if !Claimable(s, batch) then Some(s) else if !s.hasNotices then None else Some(Promoting(s, batch))
  }

  // ----- pre-labelling -----

  /** A grounded span before it is stored. */
  datatype Draft = Draft(entityType: string, start: int, end: int, text: string, confidence: real, source: string)

  /** How one document's extraction ends. */
  datatype Extraction = Extracted(drafts: seq<Draft>) | LocalDetectionUnavailable(message: string) | Broken(message: string)

  function Stored(drafts: seq<Draft>, document: string, id: nat): seq<Suggestion> {
    if drafts == [] then []
    else
      var d := drafts[0];
      [Suggestion(id, Content(document, d.entityType, d.start, d.end, d.text, d.confidence), d.source)]
      + Stored(drafts[1..], document, id + 1)
  }

  /** `replace_suggested_spans`: delete the document's suggestions, insert the new ones. */
  function Replaced(s: Store, document: string, drafts: seq<Draft>): Store {
    s.(suggestions := SuggestionsBeside(s.suggestions, [document]) + Stored(drafts, document, s.nextId),
       nextId := s.nextId + |drafts|)
  }

  /** The error column: cut to 2000 characters, NULL for an empty message. */
  function Truncated(message: string): Option<string> {
    if message == "" then None else Some(if |message| > 2000 then message[..2000] else message)
  }

  function MarkRows(ds: seq<BatchDocument>, batch: string, document: string, status: DocumentStatus): seq<BatchDocument> {
    if ds == [] then []
    else [if ds[0].batch == batch && ds[0].document == document then ds[0].(status := status) else ds[0]]
         + MarkRows(ds[1..], batch, document, status)
  }

  function Marked(s: Store, batch: string, document: string, status: DocumentStatus): Store {
    s.(documents := MarkRows(s.documents, batch, document, status))
  }

  function Outcome(x: Extraction): DocumentStatus {
    match x
    case Extracted(_) => Succeeded
    case LocalDetectionUnavailable(m) => Failed(Truncated("local detection failed: " + m))
    case Broken(m) => Failed(Truncated(m))
  }

  function Labelled(s: Store, batch: string, document: string, x: Extraction): Store {
    Marked(if x.Extracted? then Replaced(s, document, x.drafts) else s, batch, document, Outcome(x))
  }

  function LabelledAll(s: Store, batch: string, docs: seq<string>, extract: string -> Extraction): Store
    decreases |docs|
  {
    if docs == [] then s else LabelledAll(Labelled(s, batch, docs[0], extract(docs[0])), batch, docs[1..], extract)
  }

  function CountSucceeded(docs: seq<string>, extract: string -> Extraction): (n: nat)
    ensures n <= |docs|
  {
    if docs == [] then 0 else (if extract(docs[0]).Extracted? then 1 else 0) + CountSucceeded(docs[1..], extract)
  }

  function FinalState(documents: nat, succeeded: nat, failed: nat): string {
    if documents > 0 && succeeded > 0 && failed > 0 then "partially_completed"
    else if documents > 0 && failed > 0 && succeeded == 0 then "failed"
    else "completed"
  }

  function SetBatch(s: Store, batch: string, status: string, state: string): Store {
    if batch in s.batches then s.(batches := s.batches[batch := s.batches[batch].(status := status, state := state)]) else s
  }

  datatype Report = Report(documents: nat, succeeded: nat, failed: nat, state: string, promoted: nat)

  /** The tables when every document has had its turn. */
  function InProgress(s: Store, batch: string, extract: string -> Extraction): Store {
    LabelledAll(SetBatch(s, batch, "running", "processing"), batch, DocumentsOf(s.documents, batch), extract)
  }

  /** And when the batch row is written. */
  function Finished(s: Store, batch: string, extract: string -> Extraction): Store {
    var docs := DocumentsOf(s.documents, batch);
    var succeeded := CountSucceeded(docs, extract);
    SetBatch(InProgress(s, batch, extract), batch, "completed", FinalState(|docs|, succeeded, |docs| - succeeded))
  }

  predicate Promotes(s: Store, batch: string, extract: string -> Extraction) {
    batch in s.batches && s.batches[batch].kind == "large" && CountSucceeded(DocumentsOf(s.documents, batch), extract) > 0
  }

  /** The last transaction of a run: the batch row, and the promotion. */
  function Closed(s: Store, batch: string, extract: string -> Extraction): Option<Store> {
    if Promotes(s, batch, extract) then AutoPromoted(Finished(s, batch, extract), batch) else Some(Finished(s, batch, extract))
  }

  /** What `run_prelabel_batch_sync` does to the tables: if the last transaction raises, it is rolled back and
      the rest stands. */
  function Prelabelled(s: Store, batch: string, extract: string -> Extraction): Store {
    match Closed(s, batch, extract)
    case Some(after) => after
    case None => InProgress(s, batch, extract)
  }

  /** The connection the worker writes through. */
  class Workspace {
    var store: Store

    constructor (store: Store)
      ensures this.store == store
    {
      this.store := store;
    }

    /** `None`: it raised, and what it has written is for the caller's transaction to roll back. */
    method AutoPromoteLargeBatch(batch: string) returns (r: Option<nat>)
      modifies this
      ensures r.Some? <==> AutoPromoted(old(store), batch).Some?
      ensures r.Some? ==> store == AutoPromoted(old(store), batch).value
      ensures r.Some? ==> r.value == if Claimable(old(store), batch) then |Chosen(old(store), batch)| else 0
    {
      if batch !in store.batches || store.batches[batch].eligible {
        return Some(0);
      }
      var acceptance := store.nextId;
      store := Claimed(store, batch);
      var suggestions := SuggestionsFor(store.suggestions, DocumentsOf(store.documents, batch));
      var promoted := PromoteSuggestions(suggestions, batch, acceptance);
      if !store.hasNotices {
        return None;
      }
      store := store.(notices := store.notices + [Notice(store.nextId, batch, promoted)], nextId := store.nextId + 1);
      return Some(promoted);
    }

    /** The loop over the suggestions. */
    method PromoteSuggestions(suggestions: seq<Suggestion>, batch: string, acceptance: nat) returns (promoted: nat)
      modifies this
      ensures store == PromoteAll(old(store), suggestions, batch, acceptance) && store.hasNotices == old(store).hasNotices
      ensures promoted == |suggestions|
    {
      promoted := 0;
      assert suggestions[0..] == suggestions;
      for i := 0 to |suggestions|
        invariant promoted == i && store.hasNotices == old(store).hasNotices
        invariant PromoteAll(old(store), suggestions, batch, acceptance) == PromoteAll(store, suggestions[i..], batch, acceptance)
      {
        assert suggestions[i..][1..] == suggestions[i + 1..];
        PromoteSuggestion(suggestions[i], batch, acceptance);
        promoted := promoted + 1;
      }
    }

    /** One turn of it: the span, its provenance, and the suggestion gone. */
    method PromoteSuggestion(suggestion: Suggestion, batch: string, acceptance: nat)
      modifies this
      ensures store == PromoteOne(old(store), suggestion, batch, acceptance)
    {
      var spanId := store.nextId;
      store := store.(spans := store.spans + [Span(spanId, suggestion.content)], nextId := spanId + 1);
      store := store.(provenance := store.provenance + [Provenance(spanId, batch, acceptance)]);
      store := store.(suggestions := WithoutSuggestion(store.suggestions, suggestion.id));
    }

    /** One turn of the loop: the outcome is written together with its suggestions. */
    method LabelDocument(batch: string, document: string, result: Extraction) returns (ok: bool)
      modifies this
      ensures store == Labelled(old(store), batch, document, result)
      ensures ok == result.Extracted?
    {
      match result
      case LocalDetectionUnavailable(message) =>
        store := Marked(store, batch, document, Failed(Truncated("local detection failed: " + message)));
        return false;
      case Broken(message) =>
        store := Marked(store, batch, document, Failed(Truncated(message)));
        return false;
      case Extracted(drafts) =>
        store := Replaced(store, document, drafts);
        store := Marked(store, batch, document, Succeeded);
        return true;
    }

    method LabelDocuments(batch: string, docs: seq<string>, extract: string -> Extraction) returns (succeeded: nat, failed: nat)
      modifies this
      ensures store == LabelledAll(old(store), batch, docs, extract)
      ensures succeeded == CountSucceeded(docs, extract) && failed == |docs| - succeeded
    {
      succeeded, failed := 0, 0;
      assert docs[0..] == docs;
      for i := 0 to |docs|
        invariant succeeded + failed == i
        invariant CountSucceeded(docs, extract) == succeeded + CountSucceeded(docs[i..], extract)
        invariant LabelledAll(old(store), batch, docs, extract) == LabelledAll(store, batch, docs[i..], extract)
      {
        assert docs[i..][1..] == docs[i + 1..];
        var ok := LabelDocument(batch, docs[i], extract(docs[i]));
        if ok {
          succeeded := succeeded + 1;
        } else {
          failed := failed + 1;
        }
      }
    }

    /** The last transaction: the batch row, and the promotion if the batch is due one. If that raises, nothing
        of it stays. */
    method CloseBatch(batch: string, state: string, due: bool) returns (promoted: Option<nat>)
      modifies this
      ensures var finished := SetBatch(old(store), batch, "completed", state);
              match if due then AutoPromoted(finished, batch) else Some(finished)
              case Some(after) =>
                store == after && promoted == Some(if due && Claimable(finished, batch) then |Chosen(finished, batch)| else 0)
              case None => store == old(store) && promoted == None
    {
      var begun := store;
      store := SetBatch(store, batch, "completed", state);
      promoted := Some(0);
      if due {
        promoted := AutoPromoteLargeBatch(batch);
      }
      if promoted.None? {
        store := begun;
      }
    }

    /** `None`: the run raised. */
    method RunPrelabelBatch(batch: string, extract: string -> Extraction) returns (report: Option<Report>)
      modifies this
      ensures store == Prelabelled(old(store), batch, extract)
      ensures report == Reported(old(store), batch, extract)
    {
      var batchKind := if batch in store.batches then store.batches[batch].kind else "";
      var docs := DocumentsOf(store.documents, batch);
      store := SetBatch(store, batch, "running", "processing");
      var succeeded, failed := LabelDocuments(batch, docs, extract);
      var state := FinalState(|docs|, succeeded, failed);
      assert store == InProgress(old(store), batch, extract);
      var promoted := CloseBatch(batch, state, batchKind == "large" && succeeded > 0);
      if promoted.None? {
        return None;
      }
      return Some(Report(|docs|, succeeded, failed, state, promoted.value));
    }
  }

  /** What the run reports, if it does not raise. */
  function Reported(s: Store, batch: string, extract: string -> Extraction): Option<Report> {
    var docs := DocumentsOf(s.documents, batch);
    var succeeded := CountSucceeded(docs, extract);
    var finished := Finished(s, batch, extract);
    if Closed(s, batch, extract).None? then None
    else Some(Report(|docs|, succeeded, |docs| - succeeded, FinalState(|docs|, succeeded, |docs| - succeeded),
                     if Promotes(s, batch, extract) && Claimable(finished, batch) then |Chosen(finished, batch)| else 0))
  }

  // ----- what is always true of the tables -----

  /** Identifiers are fresh and unique. */
  predicate Sound(s: Store) {
    && (forall i :: 0 <= i < |s.suggestions| ==> s.suggestions[i].id < s.nextId)
    && (forall i, j :: 0 <= i < j < |s.suggestions| ==> s.suggestions[i].id != s.suggestions[j].id)
    && (forall i :: 0 <= i < |s.spans| ==> s.spans[i].id < s.nextId)
    && (forall i :: 0 <= i < |s.provenance| ==> s.provenance[i].span < s.nextId)
  }

  function SpanContents(spans: seq<Span>): multiset<Content> {
    if spans == [] then multiset{} else SpanContents(spans[..|spans| - 1]) + multiset{spans[|spans| - 1].content}
  }

  function SuggestedContents(ss: seq<Suggestion>): multiset<Content> {
    if ss == [] then multiset{} else multiset{ss[0].content} + SuggestedContents(ss[1..])
  }

  // ----- promotion conserves -----

  function Promoted(gs: seq<Suggestion>, id: nat): seq<Span> {
    if gs == [] then [] else [Span(id, gs[0].content)] + Promoted(gs[1..], id + 1)
  }

  function Traced(gs: seq<Suggestion>, id: nat, batch: string, acceptance: nat): seq<Provenance> {
    if gs == [] then [] else [Provenance(id, batch, acceptance)] + Traced(gs[1..], id + 1, batch, acceptance)
  }

  function WithoutAll(ss: seq<Suggestion>, gs: seq<Suggestion>): seq<Suggestion>
    decreases |gs|
  {
    if gs == [] then ss else WithoutAll(WithoutSuggestion(ss, gs[0].id), gs[1..])
  }

  /** The loop in closed form. */
  lemma {:induction false} PromoteAllIs(s: Store, gs: seq<Suggestion>, batch: string, acceptance: nat)
    ensures PromoteAll(s, gs, batch, acceptance) ==
            s.(spans := s.spans + Promoted(gs, s.nextId),
               provenance := s.provenance + Traced(gs, s.nextId, batch, acceptance),
               suggestions := WithoutAll(s.suggestions, gs),
               nextId := s.nextId + |gs|)
    decreases |gs|
  {
    if gs == [] {
      assert s.spans + [] == s.spans && s.provenance + [] == s.provenance;
    } else {
      PromoteAllIs(PromoteOne(s, gs[0], batch, acceptance), gs[1..], batch, acceptance);
      var a, b := Promoted(gs[1..], s.nextId + 1), Traced(gs[1..], s.nextId + 1, batch, acceptance);
      assert s.spans + ([Span(s.nextId, gs[0].content)] + a) == (s.spans + [Span(s.nextId, gs[0].content)]) + a;
      assert s.provenance + ([Provenance(s.nextId, batch, acceptance)] + b) ==
             (s.provenance + [Provenance(s.nextId, batch, acceptance)]) + b;
    }
  }

  /** The suggestions whose identifier is not among those given. */
  function Outside(ss: seq<Suggestion>, ids: set<nat>): seq<Suggestion> {
    if ss == [] then [] else (if ss[0].id in ids then [] else [ss[0]]) + Outside(ss[1..], ids)
  }

  function Ids(ss: seq<Suggestion>): set<nat> {
    set g | g in ss :: g.id
  }

  lemma {:induction false} OutsideOne(ss: seq<Suggestion>, id: nat)
    ensures WithoutSuggestion(ss, id) == Outside(ss, {id})
  {
    if ss != [] { OutsideOne(ss[1..], id); }
  }

  lemma OutsideCons(g: Suggestion, ss: seq<Suggestion>, ids: set<nat>)
    ensures Outside([g] + ss, ids) == (if g.id in ids then [] else [g]) + Outside(ss, ids)
  {
    assert ([g] + ss)[1..] == ss;
  }

  lemma {:induction false} OutsideTwice(ss: seq<Suggestion>, a: set<nat>, b: set<nat>)
    ensures Outside(Outside(ss, a), b) == Outside(ss, a + b)
  {
    if ss != [] {
      OutsideTwice(ss[1..], a, b);
      if ss[0].id in a {
        assert Outside(ss, a) == Outside(ss[1..], a);
        assert Outside(ss, a + b) == Outside(ss[1..], a + b);
      } else {
        OutsideCons(ss[0], Outside(ss[1..], a), b);
      }
    }
  }

  lemma {:induction false} OutsideNone(ss: seq<Suggestion>)
    ensures Outside(ss, {}) == ss
  {
    if ss != [] { OutsideNone(ss[1..]); }
  }

  lemma {:induction false} WithoutAllIsOutside(ss: seq<Suggestion>, gs: seq<Suggestion>)
    ensures WithoutAll(ss, gs) == Outside(ss, Ids(gs))
    decreases |gs|
  {
    if gs == [] {
      assert Ids(gs) == {};
      OutsideNone(ss);
    } else {
      WithoutAllIsOutside(WithoutSuggestion(ss, gs[0].id), gs[1..]);
      OutsideOne(ss, gs[0].id);
      OutsideTwice(ss, {gs[0].id}, Ids(gs[1..]));
      assert gs == [gs[0]] + gs[1..];
      assert Ids(gs) == {gs[0].id} + Ids(gs[1..]);
    }
  }

  lemma {:induction false} OutsideIsBeside(ss: seq<Suggestion>, docs: seq<string>, ids: set<nat>)
    requires forall g :: g in ss ==> (g.id in ids <==> g.content.document in docs)
    ensures Outside(ss, ids) == SuggestionsBeside(ss, docs)
  {
    if ss != [] {
      assert ss[0] in ss;
      OutsideIsBeside(ss[1..], docs, ids);
    }
  }

  lemma {:induction false} ForMembers(ss: seq<Suggestion>, docs: seq<string>)
    ensures forall g :: g in SuggestionsFor(ss, docs) <==> g in ss && g.content.document in docs
    ensures forall g :: g in SuggestionsBeside(ss, docs) <==> g in ss && g.content.document !in docs
  {
    if ss != [] {
      ForMembers(ss[1..], docs);
      assert ss == [ss[0]] + ss[1..];
    }
  }

  /** Deleting the chosen suggestions one by one, by identifier, leaves exactly the others. */
  lemma WithoutChosen(ss: seq<Suggestion>, docs: seq<string>)
    requires forall i, j :: 0 <= i < j < |ss| ==> ss[i].id != ss[j].id
    ensures WithoutAll(ss, SuggestionsFor(ss, docs)) == SuggestionsBeside(ss, docs)
  {
    var gs := SuggestionsFor(ss, docs);
    ForMembers(ss, docs);
    WithoutAllIsOutside(ss, gs);
    forall g | g in ss ensures g.id in Ids(gs) <==> g.content.document in docs {
      if h :| h in gs && h.id == g.id {
        var i :| 0 <= i < |ss| && ss[i] == g;
        var j :| 0 <= j < |ss| && ss[j] == h;
        assert i == j;
      }
    }
    OutsideIsBeside(ss, docs, Ids(gs));
  }

  lemma ContentsCons(take: bool, g: Suggestion, ss: seq<Suggestion>)
    ensures SuggestedContents((if take then [g] else []) + ss) ==
            (if take then multiset{g.content} else multiset{}) + SuggestedContents(ss)
  {
    if take { assert ([g] + ss)[1..] == ss; } else { assert [] + ss == ss; }
  }

  lemma {:induction false} SuggestionsSplit(ss: seq<Suggestion>, docs: seq<string>)
    ensures SuggestedContents(ss) == SuggestedContents(SuggestionsFor(ss, docs)) + SuggestedContents(SuggestionsBeside(ss, docs))
  {
    if ss != [] {
      SuggestionsSplit(ss[1..], docs);
      var chosen := ss[0].content.document in docs;
      ContentsCons(chosen, ss[0], SuggestionsFor(ss[1..], docs));
      ContentsCons(!chosen, ss[0], SuggestionsBeside(ss[1..], docs));
    }
  }

  lemma {:induction false} PromotedContents(spans: seq<Span>, gs: seq<Suggestion>, id: nat)
    ensures SpanContents(spans + Promoted(gs, id)) == SpanContents(spans) + SuggestedContents(gs)
    decreases |gs|
  {
    if gs == [] {
      assert spans + [] == spans;
    } else {
      var one := spans + [Span(id, gs[0].content)];
      assert spans + Promoted(gs, id) == one + Promoted(gs[1..], id + 1);
      PromotedContents(one, gs[1..], id + 1);
      assert one[..|one| - 1] == spans;
    }
  }

  lemma {:induction false} TracedOnce(gs: seq<Suggestion>, id: nat, batch: string, acceptance: nat)
    ensures |Promoted(gs, id)| == |Traced(gs, id, batch, acceptance)| == |gs|
    ensures forall k :: 0 <= k < |gs| ==>
              Promoted(gs, id)[k] == Span(id + k, gs[k].content) && Traced(gs, id, batch, acceptance)[k] == Provenance(id + k, batch, acceptance)
  {
    if gs != [] { TracedOnce(gs[1..], id + 1, batch, acceptance); }
  }

  function Rows(ps: seq<Provenance>, span: nat): nat {
    if ps == [] then 0 else (if ps[|ps| - 1].span == span then 1 else 0) + Rows(ps[..|ps| - 1], span)
  }

  /** Promotion in closed form. It raises where no notice can be written; elsewhere the batch's suggestions become
      spans with fresh identifiers, one provenance row each, the acceptance and a notice of their number are
      written, and everything else stays. */
  lemma AutoPromotedIs(s: Store, batch: string)
    requires Sound(s) && Claimable(s, batch)
    ensures AutoPromoted(s, batch) == if s.hasNotices then Some(Promoting(s, batch)) else None
    ensures var after, docs := Promoting(s, batch), DocumentsOf(s.documents, batch);
            && after.spans == s.spans + Promoted(Chosen(s, batch), s.nextId + 1)
            && after.provenance == s.provenance + Traced(Chosen(s, batch), s.nextId + 1, batch, s.nextId)
            && after.suggestions == SuggestionsBeside(s.suggestions, docs)
            && after.documents == s.documents
            && after.acceptances == s.acceptances + [Acceptance(s.nextId, batch)]
            && after.notices == s.notices + [Notice(s.nextId + 1 + |Chosen(s, batch)|, batch, |Chosen(s, batch)|)]
            && after.batches == s.batches[batch := s.batches[batch].(eligible := true, review := "approved")]
  {
    PromoteAllIs(Claimed(s, batch), Chosen(s, batch), batch, s.nextId);
    WithoutChosen(s.suggestions, DocumentsOf(s.documents, batch));
  }

  /** Content is conserved: nothing said in a span or a suggestion is lost, added or changed. */
  lemma PromotionConserves(s: Store, batch: string)
    requires Sound(s) && AutoPromoted(s, batch).Some?
    ensures var after := AutoPromoted(s, batch).value;
            SpanContents(after.spans) + SuggestedContents(after.suggestions) ==
            SpanContents(s.spans) + SuggestedContents(s.suggestions)
  {
    if Claimable(s, batch) {
      AutoPromotedIs(s, batch);
      ContentsMove(s.spans, s.suggestions, DocumentsOf(s.documents, batch), s.nextId + 1);
    }
  }

  lemma ContentsMove(spans: seq<Span>, ss: seq<Suggestion>, docs: seq<string>, id: nat)
    ensures SpanContents(spans + Promoted(SuggestionsFor(ss, docs), id)) + SuggestedContents(SuggestionsBeside(ss, docs)) ==
            SpanContents(spans) + SuggestedContents(ss)
  {
    SuggestionsSplit(ss, docs);
    PromotedContents(spans, SuggestionsFor(ss, docs), id);
  }

  lemma {:induction false} RowsOld(ps: seq<Provenance>, span: nat)
    requires forall i :: 0 <= i < |ps| ==> ps[i].span != span
    ensures Rows(ps, span) == 0
  {
    if ps != [] { RowsOld(ps[..|ps| - 1], span); }
  }

  lemma {:induction false} RowsConcat(ps: seq<Provenance>, qs: seq<Provenance>, span: nat)
    ensures Rows(ps + qs, span) == Rows(ps, span) + Rows(qs, span)
    decreases |qs|
  {
    if qs == [] {
      assert ps + qs == ps;
    } else {
      assert (ps + qs)[..|ps + qs| - 1] == ps + qs[..|qs| - 1];
      RowsConcat(ps, qs[..|qs| - 1], span);
    }
  }

  lemma {:induction false} RowsNew(ps: seq<Provenance>, first: nat, k: nat)
    requires k < |ps| && forall i :: 0 <= i < |ps| ==> ps[i].span == first + i
    ensures Rows(ps, first + k) == 1
  {
    if k == |ps| - 1 { RowsOld(ps[..|ps| - 1], first + k); } else { RowsNew(ps[..|ps| - 1], first, k); }
  }

  /** The span has one provenance row, and it names the batch and the acceptance. */
  predicate TracedTo(ps: seq<Provenance>, span: nat, batch: string, acceptance: nat) {
    Rows(ps, span) == 1 && Provenance(span, batch, acceptance) in ps
  }

  lemma NewRowOnce(before: seq<Provenance>, gs: seq<Suggestion>, first: nat, batch: string, acceptance: nat, k: nat)
    requires k < |gs| && forall i :: 0 <= i < |before| ==> before[i].span < first
    ensures TracedTo(before + Traced(gs, first, batch, acceptance), first + k, batch, acceptance)
  {
    var traced := Traced(gs, first, batch, acceptance);
    TracedOnce(gs, first, batch, acceptance);
    RowsConcat(before, traced, first + k);
    RowsOld(before, first + k);
    RowsNew(traced, first, k);
    assert traced[k] in traced;
  }

  lemma NewSpansTraced(spans: seq<Span>, before: seq<Provenance>, gs: seq<Suggestion>, first: nat, batch: string, acceptance: nat)
    requires forall i :: 0 <= i < |before| ==> before[i].span < first
    ensures var all, traced := spans + Promoted(gs, first), before + Traced(gs, first, batch, acceptance);
            && |all| == |spans| + |gs| && spans <= all
            && forall k :: |spans| <= k < |all| ==> TracedTo(traced, all[k].id, batch, acceptance)
  {
    NewSpansAre(spans, gs, first);
    var all, traced := spans + Promoted(gs, first), before + Traced(gs, first, batch, acceptance);
    forall k | |spans| <= k < |all| ensures TracedTo(traced, all[k].id, batch, acceptance) {
      NewRowOnce(before, gs, first, batch, acceptance, k - |spans|);
    }
  }

  lemma NewSpansAre(spans: seq<Span>, gs: seq<Suggestion>, first: nat)
    ensures var all := spans + Promoted(gs, first);
            && |all| == |spans| + |gs| && spans <= all
            && forall k :: |spans| <= k < |all| ==> all[k].id == first + (k - |spans|) && all[k].content == gs[k - |spans|].content
  {
    TracedOnce(gs, first, "", 0);
    var all := spans + Promoted(gs, first);
    assert forall k :: |spans| <= k < |all| ==> all[k] == Promoted(gs, first)[k - |spans|];
  }

  lemma SpansAfter(spans: seq<Span>, before: seq<Provenance>, gs: seq<Suggestion>, first: nat, batch: string, acceptance: nat,
                   all: seq<Span>, traced: seq<Provenance>)
    requires forall i :: 0 <= i < |before| ==> before[i].span < first
    requires all == spans + Promoted(gs, first) && traced == before + Traced(gs, first, batch, acceptance)
    ensures |all| == |spans| + |gs| && spans <= all
    ensures forall k :: |spans| <= k < |all| ==> all[k].content == gs[k - |spans|].content
    ensures forall k :: |spans| <= k < |all| ==> TracedTo(traced, all[k].id, batch, acceptance)
  {
    NewSpansAre(spans, gs, first);
    NewSpansTraced(spans, before, gs, first, batch, acceptance);
  }

  lemma SpansPromoted(s: Store, batch: string, after: Store)
    requires Sound(s) && Claimable(s, batch) && after == Promoting(s, batch)
    ensures |after.spans| == |s.spans| + |Chosen(s, batch)| && s.spans <= after.spans
    ensures forall k :: |s.spans| <= k < |after.spans| ==> after.spans[k].content == Chosen(s, batch)[k - |s.spans|].content
    ensures forall k :: |s.spans| <= k < |after.spans| ==> TracedTo(after.provenance, after.spans[k].id, batch, s.nextId)
  {
    AutoPromotedIs(s, batch);
    SpansAfter(s.spans, s.provenance, Chosen(s, batch), s.nextId + 1, batch, s.nextId, after.spans, after.provenance);
  }

  lemma NoneLeft(s: Store, batch: string, after: Store)
    requires Sound(s) && Claimable(s, batch) && after == Promoting(s, batch)
    ensures forall g :: g in after.suggestions ==> g.content.document !in DocumentsOf(s.documents, batch)
    ensures !Claimable(after, batch)
  {
    AutoPromotedIs(s, batch);
    ForMembers(s.suggestions, DocumentsOf(s.documents, batch));
  }

  /** No suggestion is left for the batch's documents; every span there was is still there; every new
      one says what its suggestion said and has exactly one provenance row, naming the batch and its acceptance;
      and a second call changes nothing at all. */
  lemma PromotedExactlyOnce(s: Store, batch: string, after: Store)
    requires Sound(s) && Claimable(s, batch) && AutoPromoted(s, batch) == Some(after)
    ensures forall g :: g in after.suggestions ==> g.content.document !in DocumentsOf(s.documents, batch)
    ensures |after.spans| == |s.spans| + |Chosen(s, batch)| && s.spans <= after.spans
    ensures forall k :: |s.spans| <= k < |after.spans| ==> after.spans[k].content == Chosen(s, batch)[k - |s.spans|].content
    ensures forall k :: |s.spans| <= k < |after.spans| ==> TracedTo(after.provenance, after.spans[k].id, batch, s.nextId)
    ensures AutoPromoted(after, batch) == Some(after)
  {
    SpansPromoted(s, batch, after);
    NoneLeft(s, batch, after);
  }
}
