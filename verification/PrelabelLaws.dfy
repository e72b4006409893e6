/** What one run over a batch leaves behind: an outcome for every document, counts that agree with the
    rows, and each document's suggestions replaced by its own extraction or left alone. */
module PrelabelLaws {

  import opened Wrappers
  import opened Promotion

  // ----- outcomes -----

  function RowMarked(d: BatchDocument, batch: string, document: string, status: DocumentStatus): BatchDocument {
    if d.batch == batch && d.document == document then d.(status := status) else d
  }

  lemma {:induction false} MarkedLength(ds: seq<BatchDocument>, batch: string, document: string, status: DocumentStatus)
    ensures |MarkRows(ds, batch, document, status)| == |ds|
  {
    if ds != [] { MarkedLength(ds[1..], batch, document, status); }
  }

  lemma {:induction false} MarkedAt(ds: seq<BatchDocument>, batch: string, document: string, status: DocumentStatus, i: nat)
    requires i < |ds|
    ensures |MarkRows(ds, batch, document, status)| == |ds|
    ensures MarkRows(ds, batch, document, status)[i] == RowMarked(ds[i], batch, document, status)
  {
    MarkedLength(ds, batch, document, status);
    if i > 0 { MarkedAt(ds[1..], batch, document, status, i - 1); }
  }

  /** What row `i` reads once the documents listed have had their turn. */
  function RowAfter(d: BatchDocument, batch: string, docs: seq<string>, extract: string -> Extraction): BatchDocument {
    if d.batch == batch && d.document in docs then d.(status := Outcome(extract(d.document))) else d
  }

  lemma RowAfterOne(d: BatchDocument, batch: string, docs: seq<string>, extract: string -> Extraction)
    requires docs != []
    ensures RowAfter(d, batch, docs, extract) ==
            RowAfter(RowMarked(d, batch, docs[0], Outcome(extract(docs[0]))), batch, docs[1..], extract)
  {
    assert docs == [docs[0]] + docs[1..];
  }

  lemma {:induction false} LabelledRow(s: Store, batch: string, docs: seq<string>, extract: string -> Extraction, i: nat)
    requires i < |s.documents|
    ensures var after := LabelledAll(s, batch, docs, extract).documents;
            |after| == |s.documents| && after[i] == RowAfter(s.documents[i], batch, docs, extract)
    decreases |docs|
  {
    if docs != [] {
      var next := Labelled(s, batch, docs[0], extract(docs[0]));
      MarkedAt(s.documents, batch, docs[0], Outcome(extract(docs[0])), i);
      LabelledRow(next, batch, docs[1..], extract, i);
      RowAfterOne(s.documents[i], batch, docs, extract);
    }
  }

  lemma {:induction false} LabelledLength(s: Store, batch: string, docs: seq<string>, extract: string -> Extraction)
    ensures |LabelledAll(s, batch, docs, extract).documents| == |s.documents|
    decreases |docs|
  {
    if docs != [] {
      MarkedLength(s.documents, batch, docs[0], Outcome(extract(docs[0])));
      LabelledLength(Labelled(s, batch, docs[0], extract(docs[0])), batch, docs[1..], extract);
    }
  }

  lemma LabelledRows(s: Store, batch: string, docs: seq<string>, extract: string -> Extraction)
    ensures var after := LabelledAll(s, batch, docs, extract);
            && |after.documents| == |s.documents|
            && forall i :: 0 <= i < |s.documents| ==> after.documents[i] == RowAfter(s.documents[i], batch, docs, extract)
  {
    LabelledLength(s, batch, docs, extract);
    forall i | 0 <= i < |s.documents|
      ensures LabelledAll(s, batch, docs, extract).documents[i] == RowAfter(s.documents[i], batch, docs, extract)
    {
      LabelledRow(s, batch, docs, extract, i);
    }
  }

  lemma {:induction false} LabelledLeaves(s: Store, batch: string, docs: seq<string>, extract: string -> Extraction)
    ensures var after := LabelledAll(s, batch, docs, extract);
            && after.batches == s.batches && after.spans == s.spans && after.provenance == s.provenance
            && after.acceptances == s.acceptances && after.notices == s.notices && after.hasNotices == s.hasNotices
    decreases |docs|
  {
    if docs != [] { LabelledLeaves(Labelled(s, batch, docs[0], extract(docs[0])), batch, docs[1..], extract); }
  }

  lemma {:induction false} DocumentsOfMembers(ds: seq<BatchDocument>, batch: string)
    ensures forall i :: 0 <= i < |ds| && ds[i].batch == batch ==> ds[i].document in DocumentsOf(ds, batch)
    ensures forall d :: d in DocumentsOf(ds, batch) ==> exists i :: 0 <= i < |ds| && ds[i].batch == batch && ds[i].document == d
  {
    if ds != [] {
      DocumentsOfMembers(ds[1..], batch);
      forall d | d in DocumentsOf(ds, batch) ensures exists i :: 0 <= i < |ds| && ds[i].batch == batch && ds[i].document == d {
        if d in DocumentsOf(ds[1..], batch) {
          var i :| 0 <= i < |ds[1..]| && ds[1..][i].batch == batch && ds[1..][i].document == d;
          assert ds[i + 1] == ds[1..][i];
        }
      }
      forall i | 0 <= i < |ds| && ds[i].batch == batch ensures ds[i].document in DocumentsOf(ds, batch) {
        if i > 0 { assert ds[i] == ds[1..][i - 1]; }
      }
    }
  }

  lemma {:induction false} SameDocuments(before: seq<BatchDocument>, after: seq<BatchDocument>, batch: string)
    requires |before| == |after|
    requires forall i :: 0 <= i < |before| ==> before[i].batch == after[i].batch && before[i].document == after[i].document
    ensures DocumentsOf(before, batch) == DocumentsOf(after, batch)
  {
    if before != [] { SameDocuments(before[1..], after[1..], batch); }
  }

  function RowsWith(ds: seq<BatchDocument>, batch: string, succeeded: bool): nat {
    if ds == [] then 0
    else (if ds[0].batch == batch && (if succeeded then ds[0].status.Succeeded? else ds[0].status.Failed?) then 1 else 0)
         + RowsWith(ds[1..], batch, succeeded)
  }

  lemma {:induction false} RowsMatchOutcomes(ds: seq<BatchDocument>, batch: string, extract: string -> Extraction)
    requires forall i :: 0 <= i < |ds| && ds[i].batch == batch ==> ds[i].status == Outcome(extract(ds[i].document))
    ensures RowsWith(ds, batch, true) == CountSucceeded(DocumentsOf(ds, batch), extract)
    ensures RowsWith(ds, batch, false) == |DocumentsOf(ds, batch)| - CountSucceeded(DocumentsOf(ds, batch), extract)
  {
    if ds != [] {
      RowsMatchOutcomes(ds[1..], batch, extract);
      var rest := DocumentsOf(ds[1..], batch);
      if ds[0].batch == batch {
        assert DocumentsOf(ds, batch)[1..] == rest;
      } else {
        assert DocumentsOf(ds, batch) == rest;
      }
    }
  }

  /** Promotion writes no outcome. */
  lemma {:induction false} PromoteAllLeaves(s: Store, gs: seq<Suggestion>, batch: string, acceptance: nat)
    ensures PromoteAll(s, gs, batch, acceptance).documents == s.documents
    ensures PromoteAll(s, gs, batch, acceptance).batches == s.batches
    decreases |gs|
  {
    if gs != [] { PromoteAllLeaves(PromoteOne(s, gs[0], batch, acceptance), gs[1..], batch, acceptance); }
  }

  lemma PromotedLeaves(s: Store, batch: string)
    requires AutoPromoted(s, batch).Some?
    ensures var after := AutoPromoted(s, batch).value;
            && after.documents == s.documents && after.batches.Keys == s.batches.Keys
            && forall b :: b in s.batches ==>
                 && after.batches[b].state == s.batches[b].state && after.batches[b].status == s.batches[b].status
                 && after.batches[b].kind == s.batches[b].kind
                 && (b != batch ==> after.batches[b] == s.batches[b])
  {
    if Claimable(s, batch) { PromoteAllLeaves(Claimed(s, batch), Chosen(s, batch), batch, s.nextId); }
  }

  lemma FinishedRows(s: Store, batch: string, extract: string -> Extraction)
    ensures var after := Finished(s, batch, extract);
            && |after.documents| == |s.documents|
            && (forall i :: 0 <= i < |s.documents| ==>
                  after.documents[i] == if s.documents[i].batch == batch
                                        then s.documents[i].(status := Outcome(extract(s.documents[i].document)))
                                        else s.documents[i])
            && DocumentsOf(after.documents, batch) == DocumentsOf(s.documents, batch)
  {
    var running := SetBatch(s, batch, "running", "processing");
    LabelledRows(running, batch, DocumentsOf(s.documents, batch), extract);
    DocumentsOfMembers(s.documents, batch);
    SameDocuments(s.documents, Finished(s, batch, extract).documents, batch);
  }

  /** However the run ends, no document of the batch is pending: each row holds its own extraction's outcome, whatever it held
      before; the rows of other batches are as they were. */
  lemma EveryDocumentHasItsOutcome(s: Store, batch: string, extract: string -> Extraction, after: Store)
    requires after == Prelabelled(s, batch, extract)
    ensures |after.documents| == |s.documents|
    ensures forall i :: 0 <= i < |s.documents| ==>
              after.documents[i] == if s.documents[i].batch == batch
                                    then s.documents[i].(status := Outcome(extract(s.documents[i].document)))
                                    else s.documents[i]
    ensures forall i :: 0 <= i < |after.documents| && after.documents[i].batch == batch ==> !after.documents[i].status.Pending?
  {
    FinishedRows(s, batch, extract);
    if AutoPromoted(Finished(s, batch, extract), batch).Some? { PromotedLeaves(Finished(s, batch, extract), batch); }
  }

  /** When a run returns, the report, the rows and the batch row tell one story: the two counts are the numbers of rows
      marked either way, they add up to the documents, and `state` says which of them is zero. */
  lemma ReportAgrees(s: Store, batch: string, extract: string -> Extraction, after: Store, report: Report)
    requires batch in s.batches
    requires after == Prelabelled(s, batch, extract) && Reported(s, batch, extract) == Some(report)
    ensures report.succeeded == RowsWith(after.documents, batch, true)
    ensures report.failed == RowsWith(after.documents, batch, false)
    ensures report.documents == report.succeeded + report.failed == |DocumentsOf(after.documents, batch)|
    ensures report.state == "completed" <==> report.failed == 0
    ensures report.state == "failed" <==> report.failed > 0 && report.succeeded == 0
    ensures report.state == "partially_completed" <==> report.failed > 0 && report.succeeded > 0
    ensures batch in after.batches && after.batches[batch].state == report.state && after.batches[batch].status == "completed"
    ensures forall b :: b in s.batches && b != batch ==> b in after.batches && after.batches[b] == s.batches[b]
  {
    CountsAgree(s, batch, extract, after);
    BatchRowAgrees(s, batch, extract, after);
  }

  lemma CountsAgree(s: Store, batch: string, extract: string -> Extraction, after: Store)
    requires after == Prelabelled(s, batch, extract)
    ensures var docs := DocumentsOf(s.documents, batch); var succeeded := CountSucceeded(docs, extract);
            && DocumentsOf(after.documents, batch) == docs
            && RowsWith(after.documents, batch, true) == succeeded
            && RowsWith(after.documents, batch, false) == |docs| - succeeded
  {
    EveryDocumentHasItsOutcome(s, batch, extract, after);
    SameDocuments(s.documents, after.documents, batch);
    RowsMatchOutcomes(after.documents, batch, extract);
  }

  lemma FinishedBatches(s: Store, batch: string, extract: string -> Extraction)
    requires batch in s.batches
    ensures var docs := DocumentsOf(s.documents, batch); var succeeded := CountSucceeded(docs, extract);
            Finished(s, batch, extract).batches ==
            s.batches[batch := s.batches[batch].(status := "completed", state := FinalState(|docs|, succeeded, |docs| - succeeded))]
  {
    LabelledLeaves(SetBatch(s, batch, "running", "processing"), batch, DocumentsOf(s.documents, batch), extract);
  }

  lemma BatchRowAgrees(s: Store, batch: string, extract: string -> Extraction, after: Store)
    requires batch in s.batches && Closed(s, batch, extract) == Some(after)
    ensures var docs := DocumentsOf(s.documents, batch); var succeeded := CountSucceeded(docs, extract);
            && batch in after.batches && after.batches[batch].status == "completed"
            && after.batches[batch].state == FinalState(|docs|, succeeded, |docs| - succeeded)
    ensures forall b :: b in s.batches && b != batch ==> b in after.batches && after.batches[b] == s.batches[b]
  {
    FinishedBatches(s, batch, extract);
    if Promotes(s, batch, extract) { PromotedLeaves(Finished(s, batch, extract), batch); }
  }

  // ----- suggestions -----

  /** What is suggested, and by which mechanism. */
  datatype Sourced = Sourced(content: Content, source: string)

  /** The contents suggested for one document. */
  function ContentsFor(ss: seq<Suggestion>, document: string): seq<Sourced> {
    if ss == [] then []
    else
      var rest := ContentsFor(ss[1..], document);
      if ss[0].content.document == document then [Sourced(ss[0].content, ss[0].source)] + rest else rest
  }

  function DraftContents(drafts: seq<Draft>, document: string): seq<Sourced> {
    seq(|drafts|, i requires 0 <= i < |drafts| =>
      Sourced(Content(document, drafts[i].entityType, drafts[i].start, drafts[i].end, drafts[i].text, drafts[i].confidence),
              drafts[i].source))
  }

  lemma PrependContents(a: seq<Sourced>, b: seq<Sourced>, c: seq<Sourced>)
    ensures a + (b + c) == (a + b) + c
  {
  }

  lemma {:induction false} ContentsConcat(a: seq<Suggestion>, b: seq<Suggestion>, document: string)
    ensures ContentsFor(a + b, document) == ContentsFor(a, document) + ContentsFor(b, document)
  {
    if a == [] {
      assert a + b == b;
    } else {
      var rest, head := a[1..], [Sourced(a[0].content, a[0].source)];
      ContentsConcat(rest, b, document);
      assert (a + b)[0] == a[0] && (a + b)[1..] == rest + b;
      PrependContents(head, ContentsFor(rest, document), ContentsFor(b, document));
    }
  }

  lemma {:induction false} BesideContents(ss: seq<Suggestion>, gone: string, document: string)
    ensures ContentsFor(SuggestionsBeside(ss, [gone]), document) == if document == gone then [] else ContentsFor(ss, document)
  {
    if ss != [] {
      BesideContents(ss[1..], gone, document);
      ContentsConcat(if ss[0].content.document in [gone] then [] else [ss[0]], SuggestionsBeside(ss[1..], [gone]), document);
    }
  }

  lemma {:induction false} StoredContents(drafts: seq<Draft>, owner: string, id: nat, document: string)
    ensures ContentsFor(Stored(drafts, owner, id), document) == if document == owner then DraftContents(drafts, owner) else []
  {
    if drafts != [] {
      StoredContents(drafts[1..], owner, id + 1, document);
      assert Stored(drafts, owner, id)[1..] == Stored(drafts[1..], owner, id + 1);
      assert DraftContents(drafts, owner) == DraftContents(drafts[..1], owner) + DraftContents(drafts[1..], owner);
    }
  }

  lemma ReplacedContents(s: Store, owner: string, drafts: seq<Draft>, document: string)
    ensures ContentsFor(Replaced(s, owner, drafts).suggestions, document) ==
            if document == owner then DraftContents(drafts, owner) else ContentsFor(s.suggestions, document)
  {
    ContentsConcat(SuggestionsBeside(s.suggestions, [owner]), Stored(drafts, owner, s.nextId), document);
    BesideContents(s.suggestions, owner, document);
    StoredContents(drafts, owner, s.nextId, document);
  }

  /** What the suggestions of a document say once the documents listed have had their turn. */
  function SuggestedAfter(s: Store, docs: seq<string>, extract: string -> Extraction, document: string): seq<Sourced> {
    if document in docs && extract(document).Extracted?
    then DraftContents(extract(document).drafts, document)
    else ContentsFor(s.suggestions, document)
  }

  lemma {:induction false} LabelledContents(s: Store, batch: string, docs: seq<string>, extract: string -> Extraction, document: string)
    ensures ContentsFor(LabelledAll(s, batch, docs, extract).suggestions, document) == SuggestedAfter(s, docs, extract, document)
    decreases |docs|
  {
    if docs != [] {
      var next := Labelled(s, batch, docs[0], extract(docs[0]));
      LabelledContents(next, batch, docs[1..], extract, document);
      if extract(docs[0]).Extracted? { ReplacedContents(s, docs[0], extract(docs[0]).drafts, document); }
      assert docs == [docs[0]] + docs[1..];
    }
  }

  /** Before any promotion, a document that was extracted has exactly its own drafts, in order; one that
      failed, and one outside the batch, has what it had. */
  lemma FinishedSuggestions(s: Store, batch: string, extract: string -> Extraction, document: string)
    ensures ContentsFor(Finished(s, batch, extract).suggestions, document) ==
            SuggestedAfter(s, DocumentsOf(s.documents, batch), extract, document)
  {
    LabelledContents(SetBatch(s, batch, "running", "processing"), batch, DocumentsOf(s.documents, batch), extract, document);
  }

  // ----- identifiers stay fresh -----

  predicate Unique(ss: seq<Suggestion>) {
    forall i, j :: 0 <= i < j < |ss| ==> ss[i].id != ss[j].id
  }

  lemma {:induction false} BesideUnique(ss: seq<Suggestion>, docs: seq<string>)
    requires Unique(ss)
    ensures Unique(SuggestionsBeside(ss, docs))
  {
    if ss != [] {
      BesideUnique(ss[1..], docs);
      ForMembers(ss[1..], docs);
      var rest := SuggestionsBeside(ss[1..], docs);
      forall j | 0 <= j < |rest| ensures rest[j].id != ss[0].id {
        assert rest[j].id != ss[0].id;
      }
    }
  }

  lemma {:induction false} BesideBelow(ss: seq<Suggestion>, docs: seq<string>, bound: nat)
    requires forall i :: 0 <= i < |ss| ==> ss[i].id < bound
    ensures forall i :: 0 <= i < |SuggestionsBeside(ss, docs)| ==> SuggestionsBeside(ss, docs)[i].id < bound
  {
    if ss != [] { BesideBelow(ss[1..], docs, bound); }
  }

  lemma {:induction false} StoredIds(drafts: seq<Draft>, document: string, id: nat)
    ensures |Stored(drafts, document, id)| == |drafts|
    ensures forall k :: 0 <= k < |drafts| ==> Stored(drafts, document, id)[k].id == id + k
  {
    if drafts != [] { StoredIds(drafts[1..], document, id + 1); }
  }

  lemma ReplacedSound(s: Store, document: string, drafts: seq<Draft>)
    requires Sound(s)
    ensures Sound(Replaced(s, document, drafts))
  {
    BesideUnique(s.suggestions, [document]);
    BesideBelow(s.suggestions, [document], s.nextId);
    StoredIds(drafts, document, s.nextId);
  }

  lemma {:induction false} LabelledSound(s: Store, batch: string, docs: seq<string>, extract: string -> Extraction)
    requires Sound(s)
    ensures Sound(LabelledAll(s, batch, docs, extract))
    decreases |docs|
  {
    if docs != [] {
      if extract(docs[0]).Extracted? { ReplacedSound(s, docs[0], extract(docs[0]).drafts); }
      LabelledSound(Labelled(s, batch, docs[0], extract(docs[0])), batch, docs[1..], extract);
    }
  }

  lemma FinishedSound(s: Store, batch: string, extract: string -> Extraction)
    requires Sound(s)
    ensures Sound(Finished(s, batch, extract))
  {
    LabelledSound(SetBatch(s, batch, "running", "processing"), batch, DocumentsOf(s.documents, batch), extract);
  }

  lemma PromotedBelow(s: Store, batch: string, after: Store)
    requires Sound(s) && Claimable(s, batch) && after == Promoting(s, batch)
    ensures after.nextId == s.nextId + 2 + |Chosen(s, batch)|
    ensures forall i :: 0 <= i < |after.spans| ==> after.spans[i].id < after.nextId
    ensures forall i :: 0 <= i < |after.provenance| ==> after.provenance[i].span < after.nextId
  {
    PromoteAllIs(Claimed(s, batch), Chosen(s, batch), batch, s.nextId);
    AutoPromotedIs(s, batch);
    TracedOnce(Chosen(s, batch), s.nextId + 1, batch, s.nextId);
  }

  lemma PromotionSound(s: Store, batch: string)
    requires Sound(s) && AutoPromoted(s, batch).Some?
    ensures Sound(AutoPromoted(s, batch).value)
  {
    if Claimable(s, batch) {
      AutoPromotedIs(s, batch);
      BesideUnique(s.suggestions, DocumentsOf(s.documents, batch));
      BesideBelow(s.suggestions, DocumentsOf(s.documents, batch), s.nextId);
      PromotedBelow(s, batch, Promoting(s, batch));
    }
  }

  /** A run keeps identifiers fresh and unique, so that the promotion laws hold of every later run. */
  lemma RunSound(s: Store, batch: string, extract: string -> Extraction)
    requires Sound(s)
    ensures Sound(Prelabelled(s, batch, extract))
  {
    FinishedSound(s, batch, extract);
    LabelledSound(SetBatch(s, batch, "running", "processing"), batch, DocumentsOf(s.documents, batch), extract);
    if AutoPromoted(Finished(s, batch, extract), batch).Some? { PromotionSound(Finished(s, batch, extract), batch); }
  }

  // ----- the whole run -----

  /** The extraction of some document of the batch ends without an error. */
  predicate AnyExtracted(ds: seq<BatchDocument>, batch: string, extract: string -> Extraction) {
    exists i :: 0 <= i < |ds| && ds[i].batch == batch && extract(ds[i].document).Extracted?
  }

  /** When a run sets out to promote: a `large` batch not promoted before, and at least one success. */
  predicate Confirms(s: Store, batch: string, extract: string -> Extraction) {
    && batch in s.batches && s.batches[batch].kind == "large" && !s.batches[batch].eligible
    && AnyExtracted(s.documents, batch, extract)
  }

  lemma {:induction false} AnyExtractedIff(ds: seq<BatchDocument>, batch: string, extract: string -> Extraction)
    ensures AnyExtracted(ds, batch, extract) <==> CountSucceeded(DocumentsOf(ds, batch), extract) > 0
  {
    if ds != [] {
      var rest := DocumentsOf(ds[1..], batch);
      AnyExtractedIff(ds[1..], batch, extract);
      if ds[0].batch == batch {
        assert DocumentsOf(ds, batch)[1..] == rest;
      } else {
        assert DocumentsOf(ds, batch) == rest;
      }
      if i :| 0 <= i < |ds[1..]| && ds[1..][i].batch == batch && extract(ds[1..][i].document).Extracted? {
        assert ds[i + 1] == ds[1..][i];
      }
      if i :| 0 < i < |ds| && ds[i].batch == batch && extract(ds[i].document).Extracted? {
        assert ds[1..][i - 1] == ds[i];
      }
    }
  }

  lemma ConfirmsIff(s: Store, batch: string, extract: string -> Extraction)
    ensures Confirms(s, batch, extract) <==> Promotes(s, batch, extract) && !s.batches[batch].eligible
  {
    AnyExtractedIff(s.documents, batch, extract);
  }

  lemma FinishedClaimable(s: Store, batch: string, extract: string -> Extraction)
    requires batch in s.batches
    ensures Claimable(Finished(s, batch, extract), batch) <==> !s.batches[batch].eligible
    ensures Finished(s, batch, extract).spans == s.spans && Finished(s, batch, extract).provenance == s.provenance
    ensures Finished(s, batch, extract).hasNotices == s.hasNotices
  {
    LabelledLeaves(SetBatch(s, batch, "running", "processing"), batch, DocumentsOf(s.documents, batch), extract);
  }

  lemma {:induction false} NoneFor(ss: seq<Suggestion>, document: string)
    requires forall g :: g in ss ==> g.content.document != document
    ensures ContentsFor(ss, document) == []
  {
    if ss != [] {
      assert ss[0] in ss;
      NoneFor(ss[1..], document);
    }
  }

  lemma {:induction false} BesideKeeps(ss: seq<Suggestion>, docs: seq<string>, document: string)
    requires document !in docs
    ensures ContentsFor(SuggestionsBeside(ss, docs), document) == ContentsFor(ss, document)
  {
    if ss != [] {
      BesideKeeps(ss[1..], docs, document);
      ContentsConcat(if ss[0].content.document in docs then [] else [ss[0]], SuggestionsBeside(ss[1..], docs), document);
    }
  }

  lemma ConfirmedSpans(s: Store, batch: string, after: Store)
    requires Sound(s) && Claimable(s, batch) && AutoPromoted(s, batch) == Some(after)
    ensures after.spans == s.spans + Promoted(Chosen(s, batch), s.nextId + 1)
    ensures |after.spans| == |s.spans| + |Chosen(s, batch)|
    ensures forall k :: |s.spans| <= k < |after.spans| ==> TracedTo(after.provenance, after.spans[k].id, batch, s.nextId)
    ensures after.suggestions == SuggestionsBeside(s.suggestions, DocumentsOf(s.documents, batch))
  {
    AutoPromotedIs(s, batch);
    PromotedExactlyOnce(s, batch, after);
  }

  lemma ConfirmingCloses(s: Store, batch: string, extract: string -> Extraction)
    requires Confirms(s, batch, extract) && s.hasNotices
    ensures var finished := Finished(s, batch, extract);
            && Claimable(finished, batch) && AutoPromoted(finished, batch) == Some(Prelabelled(s, batch, extract))
            && finished.spans == s.spans && DocumentsOf(finished.documents, batch) == DocumentsOf(s.documents, batch)
            && Reported(s, batch, extract).Some? && Reported(s, batch, extract).value.promoted == |Chosen(finished, batch)|
  {
    ConfirmsIff(s, batch, extract);
    FinishedClaimable(s, batch, extract);
    FinishedRows(s, batch, extract);
  }

  /** A run that confirms turns every suggestion its documents have when the loop ends, a failed
      document's earlier ones included, into a span with one provenance row, and leaves them none. */
  lemma ConfirmingRun(s: Store, batch: string, extract: string -> Extraction, after: Store)
    requires Sound(s) && Confirms(s, batch, extract) && s.hasNotices && after == Prelabelled(s, batch, extract)
    ensures var finished := Finished(s, batch, extract);
            && after.spans == s.spans + Promoted(Chosen(finished, batch), finished.nextId + 1)
            && Reported(s, batch, extract).Some?
            && Reported(s, batch, extract).value.promoted == |after.spans| - |s.spans|
            && (forall k :: |s.spans| <= k < |after.spans| ==> TracedTo(after.provenance, after.spans[k].id, batch, finished.nextId))
            && after.suggestions == SuggestionsBeside(finished.suggestions, DocumentsOf(s.documents, batch))
  {
    ConfirmingCloses(s, batch, extract);
    FinishedSound(s, batch, extract);
    ConfirmedSpans(Finished(s, batch, extract), batch, after);
  }

  /** It approves the batch, and writes one acceptance and one notice with the number reported. */
  lemma ConfirmingApproves(s: Store, batch: string, extract: string -> Extraction, after: Store)
    requires Sound(s) && Confirms(s, batch, extract) && s.hasNotices && after == Prelabelled(s, batch, extract)
    ensures batch in after.batches && after.batches[batch].eligible && after.batches[batch].review == "approved"
    ensures |after.acceptances| == |s.acceptances| + 1 && s.acceptances <= after.acceptances
    ensures after.acceptances[|s.acceptances|].batch == batch
    ensures |after.notices| == |s.notices| + 1 && s.notices <= after.notices
    ensures Reported(s, batch, extract).Some?
    ensures after.notices[|s.notices|].batch == batch && after.notices[|s.notices|].promoted == Reported(s, batch, extract).value.promoted
  {
    ConfirmingCloses(s, batch, extract);
    FinishedSound(s, batch, extract);
    FinishedKeeps(s, batch, extract);
    AutoPromotedIs(Finished(s, batch, extract), batch);
  }

  lemma FinishedKeeps(s: Store, batch: string, extract: string -> Extraction)
    requires batch in s.batches
    ensures var finished := Finished(s, batch, extract);
            && finished.spans == s.spans && finished.provenance == s.provenance
            && finished.acceptances == s.acceptances && finished.notices == s.notices
            && batch in finished.batches && finished.batches[batch].eligible == s.batches[batch].eligible
            && finished.batches[batch].review == s.batches[batch].review && finished.batches[batch].kind == s.batches[batch].kind
  {
    LabelledLeaves(SetBatch(s, batch, "running", "processing"), batch, DocumentsOf(s.documents, batch), extract);
  }

  /** A run raises exactly when it sets out to promote where no notice can be written. Its last transaction
      is then undone: every outcome and suggestion is in, nothing is promoted or even claimed, and the batch
      is left running, its state at odds with its documents. */
  lemma RaisesIff(s: Store, batch: string, extract: string -> Extraction, after: Store)
    requires batch in s.batches && after == Prelabelled(s, batch, extract)
    ensures Reported(s, batch, extract).None? <==> Confirms(s, batch, extract) && !s.hasNotices
    ensures Reported(s, batch, extract).None? ==>
              && after == InProgress(s, batch, extract)
              && after.batches == s.batches[batch := s.batches[batch].(status := "running", state := "processing")]
              && after.spans == s.spans && after.provenance == s.provenance
              && after.acceptances == s.acceptances && after.notices == s.notices && after.hasNotices == s.hasNotices
  {
    ConfirmsIff(s, batch, extract);
    FinishedClaimable(s, batch, extract);
    LabelledLeaves(SetBatch(s, batch, "running", "processing"), batch, DocumentsOf(s.documents, batch), extract);
  }

  /** No rerun mends it: the next raises as well, unless not one extraction succeeds. */
  lemma RerunRaisesAgain(s: Store, batch: string, first: string -> Extraction, second: string -> Extraction)
    requires batch in s.batches && Reported(s, batch, first).None?
    ensures var once := Prelabelled(s, batch, first);
            Reported(once, batch, second).None? <==> CountSucceeded(DocumentsOf(s.documents, batch), second) > 0
  {
    var once := Prelabelled(s, batch, first);
    RaisesIff(s, batch, first, once);
    FinishedRows(s, batch, first);
    RaisesIff(once, batch, second, Prelabelled(once, batch, second));
    ConfirmsIff(s, batch, first);
    ConfirmsIff(once, batch, second);
  }

  const OWN_STORE := Store(false, map["b" := Batch("large", "queued", "queued", "pending", false)],
                           [BatchDocument("b", "d", Pending)], [], [], [], [], [], 0)

  /** In a tenant-owned store the smallest large batch, one document that is extracted without error, is
      never finished. */
  lemma OwnStoreNeverFinishes(extract: string -> Extraction)
    requires extract("d") == Extracted([])
    ensures Reported(OWN_STORE, "b", extract).None?
    ensures var after := Prelabelled(OWN_STORE, "b", extract);
            "b" in after.batches && after.batches["b"].status == "running" && after.batches["b"].state == "processing"
  {
    assert DocumentsOf(OWN_STORE.documents[1..], "b") == [];
    assert DocumentsOf(OWN_STORE.documents, "b") == ["d"];
    assert CountSucceeded(["d"][1..], extract) == 0;
    assert CountSucceeded(["d"], extract) == 1;
    ConfirmsIff(OWN_STORE, "b", extract);
    RaisesIff(OWN_STORE, "b", extract, Prelabelled(OWN_STORE, "b", extract));
  }

  /** Any other run leaves spans, provenance, acceptances and notices alone, and the batch as far from approval as
      it was. */
  lemma OtherRun(s: Store, batch: string, extract: string -> Extraction, after: Store)
    requires batch in s.batches && !Confirms(s, batch, extract) && after == Prelabelled(s, batch, extract)
    ensures after == Finished(s, batch, extract) && after.spans == s.spans && after.provenance == s.provenance
    ensures after.acceptances == s.acceptances && after.notices == s.notices
    ensures batch in after.batches && after.batches[batch].eligible == s.batches[batch].eligible
    ensures after.batches[batch].review == s.batches[batch].review
    ensures Reported(s, batch, extract).Some? && Reported(s, batch, extract).value.promoted == 0
  {
    ConfirmsIff(s, batch, extract);
    FinishedClaimable(s, batch, extract);
    FinishedKeeps(s, batch, extract);
  }

  /** A batch that is not `large` is left for its review, whatever is extracted. */
  lemma SmallBatchAwaitsReview(s: Store, batch: string, extract: string -> Extraction, after: Store)
    requires batch in s.batches && s.batches[batch].kind != "large" && after == Prelabelled(s, batch, extract)
    ensures Reported(s, batch, extract).Some? && Reported(s, batch, extract).value.promoted == 0
    ensures after.spans == s.spans && after.provenance == s.provenance
    ensures after.acceptances == s.acceptances && after.notices == s.notices
    ensures batch in after.batches && after.batches[batch].kind == s.batches[batch].kind
    ensures after.batches[batch].eligible == s.batches[batch].eligible && after.batches[batch].review == s.batches[batch].review
  {
    OtherRun(s, batch, extract, after);
    FinishedKeeps(s, batch, extract);
  }

  /** A run that returns makes a batch eligible for training exactly if it is `large`, was not eligible, and some
      document of it reads `succeeded` now. */
  lemma ClaimsIff(s: Store, batch: string, extract: string -> Extraction, after: Store)
    requires Sound(s) && batch in s.batches && after == Prelabelled(s, batch, extract) && Reported(s, batch, extract).Some?
    ensures batch in after.batches
    ensures after.batches[batch].eligible && !s.batches[batch].eligible <==>
              && s.batches[batch].kind == "large" && !s.batches[batch].eligible
              && exists i :: 0 <= i < |after.documents| && after.documents[i].batch == batch && after.documents[i].status.Succeeded?
  {
    EveryDocumentHasItsOutcome(s, batch, extract, after);
    assert AnyExtracted(s.documents, batch, extract) <==>
           exists i :: 0 <= i < |after.documents| && after.documents[i].batch == batch && after.documents[i].status.Succeeded?;
    if Confirms(s, batch, extract) {
      RaisesIff(s, batch, extract, after);
      ConfirmingApproves(s, batch, extract, after);
    } else {
      OtherRun(s, batch, extract, after);
    }
  }

  /** A failure keeps its message: the first 2000 characters of it, or none of an empty one; a document whose local
      detection was unavailable says so in front. */
  lemma FailureKeepsMessage(message: string)
    ensures Outcome(Broken(message)).Failed? && Outcome(LocalDetectionUnavailable(message)).Failed?
    ensures Outcome(Broken(message)).error == if message == "" then None else Some(if |message| <= 2000 then message else message[..2000])
    ensures var error := Outcome(LocalDetectionUnavailable(message)).error;
            && error.Some? && error.value <= "local detection failed: " + message
            && |error.value| == if |message| <= 1976 then 24 + |message| else 2000
  {
    assert |"local detection failed: "| == 24;
  }

  /** What any run leaves suggested for a document, inside the batch or not. */
  lemma SuggestedAfterRun(s: Store, batch: string, extract: string -> Extraction, document: string)
    requires Sound(s) && batch in s.batches
    ensures var docs := DocumentsOf(s.documents, batch);
            ContentsFor(Prelabelled(s, batch, extract).suggestions, document) ==
            if Confirms(s, batch, extract) && s.hasNotices && document in docs then [] else SuggestedAfter(s, docs, extract, document)
  {
    var finished, docs := Finished(s, batch, extract), DocumentsOf(s.documents, batch);
    FinishedSuggestions(s, batch, extract, document);
    if Confirms(s, batch, extract) && !s.hasNotices {
      RaisesIff(s, batch, extract, Prelabelled(s, batch, extract));
    } else if Confirms(s, batch, extract) {
      ConfirmingRun(s, batch, extract, Prelabelled(s, batch, extract));
      ForMembers(finished.suggestions, docs);
      if document in docs {
        NoneFor(SuggestionsBeside(finished.suggestions, docs), document);
      } else {
        BesideKeeps(finished.suggestions, docs, document);
      }
    } else {
      OtherRun(s, batch, extract, Prelabelled(s, batch, extract));
    }
  }

  /** A batch is confirmed at most once over any two runs: after a run that confirms, a rerun promotes
      nothing, whatever it extracts, and its new suggestions stay suggestions. */
  lemma RerunConfirmsNothing(s: Store, batch: string, first: string -> Extraction, second: string -> Extraction, document: string)
    requires Sound(s) && Confirms(s, batch, first) && Reported(s, batch, first).Some?
    ensures var once := Prelabelled(s, batch, first); var twice := Prelabelled(once, batch, second);
            && twice.spans == once.spans && twice.provenance == once.provenance
            && Reported(once, batch, second).Some? && Reported(once, batch, second).value.promoted == 0
            && ContentsFor(twice.suggestions, document) == SuggestedAfter(once, DocumentsOf(s.documents, batch), second, document)
  {
    var once := Prelabelled(s, batch, first);
    RaisesIff(s, batch, first, once);
    ConfirmingApproves(s, batch, first, once);
    RunSound(s, batch, first);
    CountsAgree(s, batch, first, once);
    OtherRun(once, batch, second, Prelabelled(once, batch, second));
    SuggestedAfterRun(once, batch, second, document);
  }
}
