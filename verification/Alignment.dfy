/** Placing model predictions on document tokens. */
module Alignment {

  import opened Wrappers

  // ----- tokens -----

  datatype TokenRecord = TokenRecord(token: string, page: Option<int>, charStart: Option<int>, charEnd: Option<int>)

  /** `\s` of the regular-expression engine; every classification of characters is covered. */
  type Blank = char -> bool

  /** The end of the run of non-blank characters starting at `i`. */
  function RunEnd(text: string, i: nat, blank: Blank): (e: nat)
    requires i <= |text|
    ensures i <= e <= |text|
    ensures forall k :: i <= k < e ==> !blank(text[k])
    ensures e < |text| ==> blank(text[e])
    decreases |text| - i
  {
    if i < |text| && !blank(text[i]) then RunEnd(text, i + 1, blank) else i
  }

  function RecordAt(text: string, page: Option<int>, start: Option<int>, s: nat, e: nat): TokenRecord
    requires s <= e <= |text|
  {
    TokenRecord(text[s..e], page,
                if start.Some? then Some(start.value + s) else None,
                if start.Some? then Some(start.value + e) else None)
  }

  /** The non-blank runs of the text from position `i` on, each with its absolute offsets. */
  function TokensFrom(text: string, i: nat, page: Option<int>, start: Option<int>, blank: Blank): seq<TokenRecord>
    requires i <= |text|
    decreases |text| - i
  {
    if i == |text| then []
    else if blank(text[i]) then TokensFrom(text, i + 1, page, start, blank)
    else
      var e := RunEnd(text, i, blank);
      assert e > i;
      [RecordAt(text, page, start, i, e)] + TokensFrom(text, e, page, start, blank)
  }

  /** `_tokenize_span`: `re.finditer("\S+")`. */
  method TokenizeSpan(text: string, page: Option<int>, start: Option<int>, blank: Blank) returns (tokens: seq<TokenRecord>)
    ensures tokens == TokensFrom(text, 0, page, start, blank)
  {
    tokens := [];
    var i: nat := 0;
    while i < |text|
      invariant i <= |text|
      invariant TokensFrom(text, 0, page, start, blank) == tokens + TokensFrom(text, i, page, start, blank)
    {
      if blank(text[i]) {
        i := i + 1;
      } else {
        var e := RunEnd(text, i, blank);
        ghost var rest := TokensFrom(text, e, page, start, blank);
        assert tokens + ([RecordAt(text, page, start, i, e)] + rest) == (tokens + [RecordAt(text, page, start, i, e)]) + rest;
        tokens := tokens + [RecordAt(text, page, start, i, e)];
        i := e;
      }
    }
  }

  /** A record slices back to its token: its offsets, less the span's own start, cut it out of the
      span's text. */
  predicate Slices(r: TokenRecord, text: string, start: int) {
    && r.charStart.Some? && r.charEnd.Some?
    && start <= r.charStart.value < r.charEnd.value <= start + |text|
    && text[r.charStart.value - start..r.charEnd.value - start] == r.token
  }

  /** Each token is a run of the text at its own offsets. */
  lemma {:induction false} TokensSlice(text: string, i: nat, page: Option<int>, start: int, blank: Blank)
    requires i <= |text|
    ensures forall r :: r in TokensFrom(text, i, page, Some(start), blank) ==>
              Slices(r, text, start) && r.page == page && r.charStart.value >= start + i
    decreases |text| - i
  {
    if i < |text| {
      if blank(text[i]) {
        TokensSlice(text, i + 1, page, start, blank);
      } else {
        var e := RunEnd(text, i, blank);
        assert Slices(RecordAt(text, page, Some(start), i, e), text, start);
        TokensSlice(text, e, page, start, blank);
      }
    }
  }

  /** Consecutive tokens do not touch: each run was taken whole. */
  lemma {:induction false} TokensApart(text: string, i: nat, page: Option<int>, start: int, blank: Blank, k: nat)
    requires i <= |text| && k + 1 < |TokensFrom(text, i, page, Some(start), blank)|
    ensures var ts := TokensFrom(text, i, page, Some(start), blank);
            ts[k].charEnd.Some? && ts[k + 1].charStart.Some? && ts[k].charEnd.value < ts[k + 1].charStart.value
    decreases |text| - i
  {
    if blank(text[i]) {
      TokensApart(text, i + 1, page, start, blank, k);
    } else {
      var e := RunEnd(text, i, blank);
      var rest := TokensFrom(text, e, page, Some(start), blank);
      assert TokensFrom(text, i, page, Some(start), blank) == [RecordAt(text, page, Some(start), i, e)] + rest;
      if k > 0 {
        TokensApart(text, e, page, start, blank, k - 1);
      } else {
        assert rest == TokensFrom(text, e + 1, page, Some(start), blank);
        TokensSlice(text, e + 1, page, start, blank);
        assert rest[0] in rest;
      }
    }
  }

  function NonBlank(text: string, i: nat, blank: Blank): string
    requires i <= |text|
    decreases |text| - i
  {
    if i == |text| then "" else (if blank(text[i]) then "" else [text[i]]) + NonBlank(text, i + 1, blank)
  }

  function Joined(ts: seq<TokenRecord>): string {
    if ts == [] then "" else ts[0].token + Joined(ts[1..])
  }

  lemma {:induction false} NonBlankRun(text: string, i: nat, e: nat, blank: Blank)
    requires i <= e <= |text| && forall k :: i <= k < e ==> !blank(text[k])
    ensures NonBlank(text, i, blank) == text[i..e] + NonBlank(text, e, blank)
    decreases e - i
  {
    if i < e {
      NonBlankRun(text, i + 1, e, blank);
      var tail := NonBlank(text, e, blank);
      assert text[i..e] == [text[i]] + text[i + 1..e];
      assert [text[i]] + (text[i + 1..e] + tail) == ([text[i]] + text[i + 1..e]) + tail;
    }
  }

  /** The tokens together are the text without its blanks. */
  lemma {:induction false} TokensCover(text: string, i: nat, page: Option<int>, start: Option<int>, blank: Blank)
    requires i <= |text|
    ensures Joined(TokensFrom(text, i, page, start, blank)) == NonBlank(text, i, blank)
    decreases |text| - i
  {
    if i < |text| {
      if blank(text[i]) {
        TokensCover(text, i + 1, page, start, blank);
      } else {
        var e := RunEnd(text, i, blank);
        TokensCover(text, e, page, start, blank);
        NonBlankRun(text, i, e, blank);
        var ts := TokensFrom(text, i, page, start, blank);
        assert ts[1..] == TokensFrom(text, e, page, start, blank);
      }
    }
  }

  // ----- alignment -----

  datatype Prediction = Prediction(token: string, wordIndex: Option<int>)

  datatype Aligned = Aligned(prediction: Prediction, page: Option<int>, charStart: Option<int>, charEnd: Option<int>)

  function SearchText(token: string): string {
    if |token| >= 2 && token[..2] == "##" then token[2..] else token
  }

  predicate Matches(p: Prediction, r: TokenRecord) {
    r.token == p.token || r.token == SearchText(p.token)
  }

  function NextMatch(p: Prediction, records: seq<TokenRecord>, from: nat): (r: Option<nat>)
    ensures r.Some? ==> from <= r.value < |records| && Matches(p, records[r.value])
    ensures r.Some? ==> forall j :: from <= j < r.value ==> !Matches(p, records[j])
    ensures r.None? ==> forall j :: from <= j < |records| ==> !Matches(p, records[j])
    decreases |records| - from
  {
    if from >= |records| then None
    else if Matches(p, records[from]) then Some(from)
    else NextMatch(p, records, from + 1)
  }

  /** Where a prediction goes when the scan stands at `from`: by its word index if that is in range,
      by the next matching token otherwise. */
  function Place(p: Prediction, records: seq<TokenRecord>, from: nat): Option<nat> {
    if p.wordIndex.Some? && 0 <= p.wordIndex.value < |records| then Some(p.wordIndex.value)
    else NextMatch(p, records, from)
  }

  /** The token index of each prediction, scanning forward. */
  function Places(ps: seq<Prediction>, records: seq<TokenRecord>, from: nat): (r: seq<Option<nat>>)
    ensures |r| == |ps|
    ensures forall i :: 0 <= i < |r| && r[i].Some? ==> r[i].value < |records|
  {
    if ps == [] then []
    else
      var at := Place(ps[0], records, from);
      [at] + Places(ps[1..], records, if at.Some? then at.value + 1 else from)
  }

  function Attach(p: Prediction, records: seq<TokenRecord>, at: Option<nat>): Aligned
    requires at.Some? ==> at.value < |records|
  {
    if at.Some? then Aligned(p, records[at.value].page, records[at.value].charStart, records[at.value].charEnd)
    else Aligned(p, None, None, None)
  }

  function AlignedFrom(ps: seq<Prediction>, records: seq<TokenRecord>, from: nat): seq<Aligned> {
    if ps == [] then []
    else
      var at := Place(ps[0], records, from);
      [Attach(ps[0], records, at)] + AlignedFrom(ps[1..], records, if at.Some? then at.value + 1 else from)
  }

  /** `_align_predictions_with_offsets`. */
  method AlignPredictionsWithOffsets(ps: seq<Prediction>, records: seq<TokenRecord>) returns (aligned: seq<Aligned>)
    ensures aligned == AlignedFrom(ps, records, 0)
  {
    aligned := [];
    var ptr: nat := 0;
    assert ps[0..] == ps;
    for i := 0 to |ps|
      invariant AlignedFrom(ps, records, 0) == aligned + AlignedFrom(ps[i..], records, ptr)
    {
      assert ps[i..][1..] == ps[i + 1..];
      var at := FindPlace(ps[i], records, ptr);
      AppendAligned(aligned, ps[i..], records, ptr);
      aligned := aligned + [Attach(ps[i], records, at)];
      if at.Some? {
        ptr := at.value + 1;
      }
    }
  }

  /** One prediction: its word index, or the scan for a matching token. */
  method FindPlace(p: Prediction, records: seq<TokenRecord>, from: nat) returns (at: Option<nat>)
    ensures at == Place(p, records, from)
  {
    if p.wordIndex.Some? && 0 <= p.wordIndex.value < |records| {
      return Some(p.wordIndex.value);
    }
    var j: nat := from;
    while j < |records|
      invariant NextMatch(p, records, from) == NextMatch(p, records, j)
    {
      if Matches(p, records[j]) {
        return Some(j);
      }
      j := j + 1;
    }
    return None;
  }

  lemma AppendAligned(done: seq<Aligned>, ps: seq<Prediction>, records: seq<TokenRecord>, from: nat)
    requires ps != []
    ensures var at := Place(ps[0], records, from);
            done + AlignedFrom(ps, records, from) ==
            (done + [Attach(ps[0], records, at)]) + AlignedFrom(ps[1..], records, if at.Some? then at.value + 1 else from)
  {
  }

  /** The scan attaches to each prediction what the token at its place carries. */
  lemma {:induction false} AlignedAtPlaces(ps: seq<Prediction>, records: seq<TokenRecord>, from: nat)
    ensures |AlignedFrom(ps, records, from)| == |ps|
    ensures forall i :: 0 <= i < |ps| ==> AlignedFrom(ps, records, from)[i] == Attach(ps[i], records, Places(ps, records, from)[i])
    decreases |ps|
  {
    if ps != [] {
      var at := Place(ps[0], records, from);
      var next := if at.Some? then at.value + 1 else from;
      AlignedAtPlaces(ps[1..], records, next);
      assert Places(ps, records, from)[1..] == Places(ps[1..], records, next);
      assert AlignedFrom(ps, records, from)[1..] == AlignedFrom(ps[1..], records, next);
      forall i | 1 <= i < |ps| ensures AlignedFrom(ps, records, from)[i] == Attach(ps[i], records, Places(ps, records, from)[i]) {
        assert AlignedFrom(ps, records, from)[i] == AlignedFrom(ps[1..], records, next)[i - 1];
        assert Places(ps, records, from)[i] == Places(ps[1..], records, next)[i - 1];
      }
    }
  }

  // ----- laws -----

  /** A prediction fits a text that is its own, or its own behind a `##`. */
  predicate Fits(p: Prediction, text: string) {
    p.token == text || p.token == "##" + text
  }

  lemma MatchesIff(p: Prediction, r: TokenRecord)
    ensures Matches(p, r) <==> Fits(p, r.token)
  {
    assert ("##" + r.token)[..2] == "##" && ("##" + r.token)[2..] == r.token;
    if |p.token| >= 2 && p.token[..2] == "##" { assert p.token == "##" + p.token[2..]; }
  }

  /** The predictions sit, in order, on strictly increasing tokens from `from` on. */
  predicate Embeds(ps: seq<Prediction>, records: seq<TokenRecord>, from: nat, f: seq<nat>) {
    && |f| == |ps|
    && (forall i :: 0 <= i < |f| ==> from <= f[i] < |records| && Fits(ps[i], records[f[i]].token))
    && (forall i, j :: 0 <= i < j < |f| ==> f[i] < f[j])
  }

  predicate NoIndex(ps: seq<Prediction>) {
    forall i :: 0 <= i < |ps| ==> ps[i].wordIndex.None?
  }

  predicate AllPlaced(at: seq<Option<nat>>) {
    forall i :: 0 <= i < |at| ==> at[i].Some?
  }

  /** The places, when every prediction has one. */
  function Values(at: seq<Option<nat>>): (f: seq<nat>)
    requires AllPlaced(at)
    ensures |f| == |at| && forall i :: 0 <= i < |at| ==> f[i] == at[i].value
  {
    if at == [] then [] else [at[0].value] + Values(at[1..])
  }

  lemma EmbedsCons(p: Prediction, ps: seq<Prediction>, records: seq<TokenRecord>, from: nat, at: nat, f: seq<nat>)
    requires from <= at < |records| && Fits(p, records[at].token) && Embeds(ps, records, at + 1, f)
    ensures Embeds([p] + ps, records, from, [at] + f)
  {
    var qs, g := [p] + ps, [at] + f;
    forall i | 0 <= i < |g| ensures from <= g[i] < |records| && Fits(qs[i], records[g[i]].token) {
      if i > 0 { assert g[i] == f[i - 1] && qs[i] == ps[i - 1]; }
    }
    forall i, j | 0 <= i < j < |g| ensures g[i] < g[j] {
      assert g[j] == f[j - 1];
      if i > 0 { assert g[i] == f[i - 1]; }
    }
  }

  /** The scan places the first prediction no later than any embedding does. */
  lemma GreedyFirst(ps: seq<Prediction>, records: seq<TokenRecord>, from: nat, f: seq<nat>)
    requires ps != [] && ps[0].wordIndex.None? && Embeds(ps, records, from, f)
    ensures var at := NextMatch(ps[0], records, from);
            at.Some? && at.value <= f[0] && Embeds(ps[1..], records, at.value + 1, f[1..])
  {
    MatchesIff(ps[0], records[f[0]]);
    var at := NextMatch(ps[0], records, from);
    assert f[0] < |records| && Matches(ps[0], records[f[0]]);
  }

  lemma {:induction false} GreedyPlaces(ps: seq<Prediction>, records: seq<TokenRecord>, from: nat, f: seq<nat>)
    requires NoIndex(ps) && Embeds(ps, records, from, f)
    ensures AllPlaced(Places(ps, records, from))
    ensures forall i :: 0 <= i < |ps| ==> Places(ps, records, from)[i].value <= f[i]
    decreases |ps|
  {
    if ps != [] {
      var at := NextMatch(ps[0], records, from);
      GreedyFirst(ps, records, from, f);
      GreedyPlaces(ps[1..], records, at.value + 1, f[1..]);
      var all, rest := Places(ps, records, from), Places(ps[1..], records, at.value + 1);
      assert all == [at] + rest;
      forall i | 1 <= i < |ps| ensures all[i].Some? && all[i].value <= f[i] {
        assert all[i] == rest[i - 1] && f[i] == f[1..][i - 1];
      }
    }
  }

  lemma {:induction false} PlacesEmbed(ps: seq<Prediction>, records: seq<TokenRecord>, from: nat)
    requires NoIndex(ps) && AllPlaced(Places(ps, records, from))
    ensures Embeds(ps, records, from, Values(Places(ps, records, from)))
    decreases |ps|
  {
    if ps != [] {
      var at := NextMatch(ps[0], records, from);
      var all := Places(ps, records, from);
      assert all[0] == at;
      var rest := Places(ps[1..], records, at.value + 1);
      assert all == [at] + rest;
      assert forall i :: 0 <= i < |rest| ==> rest[i] == all[i + 1];
      PlacesEmbed(ps[1..], records, at.value + 1);
      MatchesIff(ps[0], records[at.value]);
      EmbedsCons(ps[0], ps[1..], records, from, at.value, Values(rest));
      assert [ps[0]] + ps[1..] == ps;
      assert Values(all) == [at.value] + Values(rest);
    }
  }

  /** The forward scan is complete: predictions without a word index are all placed exactly when they
      embed in order into the tokens, and then at strictly increasing matching tokens. */
  lemma AllPlacedIff(ps: seq<Prediction>, records: seq<TokenRecord>)
    requires NoIndex(ps)
    ensures AllPlaced(Places(ps, records, 0)) <==> exists f :: Embeds(ps, records, 0, f)
    ensures AllPlaced(Places(ps, records, 0)) ==> Embeds(ps, records, 0, Values(Places(ps, records, 0)))
  {
    if AllPlaced(Places(ps, records, 0)) { PlacesEmbed(ps, records, 0); }
    if f :| Embeds(ps, records, 0, f) { GreedyPlaces(ps, records, 0, f); }
  }

  /** Where the scan stands when it comes to prediction `i`. */
  function ScanAt(ps: seq<Prediction>, records: seq<TokenRecord>, from: nat, i: nat): nat
    requires i <= |ps|
    decreases i
  {
    if i == 0 then from
    else
      var at := Place(ps[0], records, from);
      ScanAt(ps[1..], records, if at.Some? then at.value + 1 else from, i - 1)
  }

  lemma {:induction false} PlacesDrop(ps: seq<Prediction>, records: seq<TokenRecord>, from: nat, i: nat)
    requires i <= |ps|
    ensures Places(ps, records, from)[i..] == Places(ps[i..], records, ScanAt(ps, records, from, i))
    decreases i
  {
    if i == 0 {
      assert ps[0..] == ps;
    } else {
      var at := Place(ps[0], records, from);
      var next := if at.Some? then at.value + 1 else from;
      PlacesTail(ps, records, from);
      PlacesDrop(ps[1..], records, next, i - 1);
      assert ps[1..][i - 1..] == ps[i..];
      assert Places(ps, records, from)[1..][i - 1..] == Places(ps, records, from)[i..];
    }
  }

  /** A word index in range is followed exactly, wherever the scan stood, and moves the scan just past
      it, forward or back. */
  lemma IndexIsExact(ps: seq<Prediction>, records: seq<TokenRecord>, from: nat, i: nat)
    requires i < |ps| && ps[i].wordIndex.Some? && 0 <= ps[i].wordIndex.value < |records|
    ensures Places(ps, records, from)[i] == Some(ps[i].wordIndex.value)
    ensures Places(ps, records, from)[i + 1..] == Places(ps[i + 1..], records, ps[i].wordIndex.value + 1)
  {
    var rest, ptr := ps[i..], ScanAt(ps, records, from, i);
    PlacesDrop(ps, records, from, i);
    PlacesTail(rest, records, ptr);
    assert rest[1..] == ps[i + 1..];
    assert Places(ps, records, from)[i..][0] == Places(ps, records, from)[i];
    assert Places(ps, records, from)[i..][1..] == Places(ps, records, from)[i + 1..];
  }

  lemma PlacesTail(ps: seq<Prediction>, records: seq<TokenRecord>, from: nat)
    requires ps != []
    ensures var at := Place(ps[0], records, from);
            Places(ps, records, from)[0] == at
            && Places(ps, records, from)[1..] == Places(ps[1..], records, if at.Some? then at.value + 1 else from)
  {
  }

  // ----- the document as a whole -----

  /** One stored stretch of a document's text. */
  datatype TextSpan = TextSpan(text: string, page: Option<int>, start: Option<int>)

  /** The document's tokens: those of its spans, one span after the other. */
  function DocumentTokens(spans: seq<TextSpan>, blank: Blank): seq<TokenRecord> {
    if spans == [] then []
    else DocumentTokens(spans[..|spans| - 1], blank) + SpanTokens(spans[|spans| - 1], blank)
  }

  function SpanTokens(span: TextSpan, blank: Blank): seq<TokenRecord> {
    TokensFrom(span.text, 0, span.page, span.start, blank)
  }

  /** The extraction worker's loop over a document's spans, those without text left out. */
  method TokenizeDocument(spans: seq<TextSpan>, blank: Blank) returns (records: seq<TokenRecord>)
    ensures records == DocumentTokens(spans, blank)
  {
    records := [];
    for i := 0 to |spans|
      invariant records == DocumentTokens(spans[..i], blank)
    {
      assert spans[..i + 1][..i] == spans[..i];
      if spans[i].text != "" {
        var tokens := TokenizeSpan(spans[i].text, spans[i].page, spans[i].start, blank);
        records := records + tokens;
      }
    }
    assert spans[..|spans|] == spans;
  }

  /** The record is a token of this span: at its own offsets there, or without offsets if the span has
      none. */
  predicate IsOfSpan(r: TokenRecord, span: TextSpan) {
    && r.page == span.page
    && if span.start.Some? then Slices(r, span.text, span.start.value) else r.charStart.None? && r.charEnd.None?
  }

  lemma {:induction false} NoOffsets(text: string, i: nat, page: Option<int>, blank: Blank)
    requires i <= |text|
    ensures forall r :: r in TokensFrom(text, i, page, None, blank) ==> r.page == page && r.charStart.None? && r.charEnd.None?
    decreases |text| - i
  {
    if i < |text| {
      if blank(text[i]) { NoOffsets(text, i + 1, page, blank); } else { NoOffsets(text, RunEnd(text, i, blank), page, blank); }
    }
  }

  lemma SpanTokensAreOfSpan(span: TextSpan, blank: Blank)
    ensures forall r :: r in SpanTokens(span, blank) ==> IsOfSpan(r, span)
  {
    if span.start.Some? {
      TokensSlice(span.text, 0, span.page, span.start.value, blank);
    } else {
      NoOffsets(span.text, 0, span.page, blank);
    }
  }

  lemma {:induction false} EveryTokenHasItsSpan(spans: seq<TextSpan>, blank: Blank, r: TokenRecord) returns (k: nat)
    requires r in DocumentTokens(spans, blank)
    ensures k < |spans| && IsOfSpan(r, spans[k])
  {
    var last := |spans| - 1;
    if r in DocumentTokens(spans[..last], blank) {
      k := EveryTokenHasItsSpan(spans[..last], blank, r);
    } else {
      k := last;
      SpanTokensAreOfSpan(spans[last], blank);
    }
  }

  /** The prediction is placed by scanning, not by a word index. */
  predicate Scanned(p: Prediction, records: seq<TokenRecord>) {
    !(p.wordIndex.Some? && 0 <= p.wordIndex.value < |records|)
  }

  lemma {:induction false} PlacedMatches(ps: seq<Prediction>, records: seq<TokenRecord>, from: nat, i: nat)
    requires i < |ps| && Scanned(ps[i], records) && Places(ps, records, from)[i].Some?
    ensures Fits(ps[i], records[Places(ps, records, from)[i].value].token)
    decreases |ps|
  {
    PlacesTail(ps, records, from);
    if i > 0 {
      var at := Place(ps[0], records, from);
      var next := if at.Some? then at.value + 1 else from;
      assert Places(ps, records, from)[i] == Places(ps[1..], records, next)[i - 1];
      PlacedMatches(ps[1..], records, next, i - 1);
    } else {
      MatchesIff(ps[0], records[Place(ps[0], records, from).value]);
    }
  }

  /** What the offsets of an aligned prediction promise about a span of the document. */
  predicate SlicesBack(a: Aligned, span: TextSpan) {
    && a.page == span.page
    && if span.start.None? then a.charStart.None? && a.charEnd.None?
       else
         && a.charStart.Some? && a.charEnd.Some?
         && span.start.value <= a.charStart.value < a.charEnd.value <= span.start.value + |span.text|
         && Fits(a.prediction, span.text[a.charStart.value - span.start.value..a.charEnd.value - span.start.value])
  }

  lemma AttachedSlicesBack(p: Prediction, records: seq<TokenRecord>, at: nat, span: TextSpan)
    requires at < |records| && IsOfSpan(records[at], span) && Fits(p, records[at].token)
    ensures SlicesBack(Attach(p, records, Some(at)), span)
  {
  }

  /** End to end: for any document and any predictions, one that is scanned for and placed has a span of
      the document whose text, cut at the aligned offsets less the span's start, is the prediction's text, or
      that text without its `##`; one that is not placed has no page and no offsets. */
  lemma PlacedTextMatches(spans: seq<TextSpan>, blank: Blank, ps: seq<Prediction>, i: nat)
    requires i < |ps| && Scanned(ps[i], DocumentTokens(spans, blank))
    ensures var records := DocumentTokens(spans, blank); var aligned := AlignedFrom(ps, records, 0);
            && |aligned| == |ps| && aligned[i].prediction == ps[i]
            && if Places(ps, records, 0)[i].Some? then exists k :: 0 <= k < |spans| && SlicesBack(aligned[i], spans[k])
               else aligned[i] == Aligned(ps[i], None, None, None)
  {
    var records := DocumentTokens(spans, blank);
    AlignedAtPlaces(ps, records, 0);
    var at := Places(ps, records, 0)[i];
    if at.Some? {
      PlacedMatches(ps, records, 0, i);
      var k := EveryTokenHasItsSpan(spans, blank, records[at.value]);
      AttachedSlicesBack(ps[i], records, at.value, spans[k]);
      assert SlicesBack(AlignedFrom(ps, records, 0)[i], spans[k]);
    }
  }

  /** Scanned predictions never go back, whether or not all of them are placed. */
  lemma {:induction false} PlacesIncrease(ps: seq<Prediction>, records: seq<TokenRecord>, from: nat, i: nat)
    requires (forall k :: 0 <= k < |ps| ==> Scanned(ps[k], records)) && i < |ps| && Places(ps, records, from)[i].Some?
    ensures from <= Places(ps, records, from)[i].value
    ensures forall h :: 0 <= h < i && Places(ps, records, from)[h].Some? ==>
              Places(ps, records, from)[h].value < Places(ps, records, from)[i].value
    decreases |ps|
  {
    PlacesTail(ps, records, from);
    if i > 0 {
      var at := Place(ps[0], records, from);
      var next := if at.Some? then at.value + 1 else from;
      var all, rest := Places(ps, records, from), Places(ps[1..], records, next);
      PlacesIncrease(ps[1..], records, next, i - 1);
      assert forall h :: 1 <= h < |ps| ==> all[h] == rest[h - 1];
    }
  }
}
