/** Where a token is cut: at every boundary the rules name, and nowhere else. */
module TokenSplits {
  import opened BioRepair

  // ----- the rules, character by character -----

  predicate IsAlnum(c: char) {
    'a' <= c <= 'z' || 'A' <= c <= 'Z' || '0' <= c <= '9'
  }

  predicate IsSixDigits(c: Classes, s: string, k: nat) {
    6 <= k <= |s| && forall j :: k - 6 <= j < k ==> c.isDecimal(s[j])
  }

  /** A boundary before position `k`: behind a comma or semicolon nothing blank follows, between a lower-case
      letter or digit and an upper-case letter, or between six digits and a letter. */
  predicate IsDue(c: Classes, s: string, k: nat) {
    0 < k < |s| &&
    ( || (s[k - 1] in [',', ';'] && !c.isSpace(s[k]))
      || (('a' <= s[k - 1] <= 'z' || '0' <= s[k - 1] <= '9') && 'A' <= s[k] <= 'Z')
      || (IsSixDigits(c, s, k) && ('a' <= s[k] <= 'z' || 'A' <= s[k] <= 'Z')))
  }

  /** A colon between two labels. */
  predicate IsGlue(s: string, k: nat) {
    0 < k < |s| - 1 && s[k] == ':' && IsAlnum(s[k - 1]) && IsAlnum(s[k + 1])
  }

  /** Nothing inside is to be cut. */
  ghost predicate IsWhole(c: Classes, s: string) {
    forall k: nat :: !IsDue(c, s, k) && !IsGlue(s, k)
  }

  lemma RulesAre(c: Classes, s: string, k: nat)
    requires k < |s|
    ensures IsDue(c, s, k) <==> CutsAt(Delimiter, c, s, k) || CutsAt(Camel, c, s, k) || CutsAt(DigitRun, c, s, k)
    ensures IsGlue(s, k) <==> ConsumesAt(Delimiter, s, k)
    ensures !ConsumesAt(Camel, s, k) && !ConsumesAt(DigitRun, s, k)
  {
  }

  // ----- the pieces tile the text -----

  /** Where the next piece begins behind a cut at `e`: a glued colon is dropped. */
  function Behind(s: string, e: nat): nat {
    if IsGlue(s, e) then e + 1 else e
  }

  predicate IsPieceAt(s: string, p: string, k: nat) {
    p != "" && k + |p| <= |s| && s[k..k + |p|] == p
  }

  /** The text is cut at `e`, and goes on at `next`. */
  predicate IsCut(c: Classes, s: string, e: nat, next: nat) {
    (IsDue(c, s, e) || IsGlue(s, e)) && next == Behind(s, e)
  }

  /** The pieces stand at the places `f`, one behind the other, from `at` to `end`, none of them empty, with a due
      boundary or a glued colon between any two. */
  predicate Tiles(c: Classes, s: string, ps: seq<string>, f: seq<nat>, at: nat, end: nat) {
    && |f| == |ps| > 0 && f[0] == at && f[|f| - 1] + |ps[|ps| - 1]| == end
    && forall i :: 0 <= i < |ps| ==> Stands(c, s, ps, f, i)
  }

  /** The `i`-th piece stands at its place, and behind it the text is cut if there is a next one. */
  predicate Stands(c: Classes, s: string, ps: seq<string>, f: seq<nat>, i: nat)
    requires i < |ps| == |f|
  {
    IsPieceAt(s, ps[i], f[i]) && (i + 1 < |ps| ==> IsCut(c, s, f[i] + |ps[i]|, f[i + 1]))
  }

  lemma AddPiece(c: Classes, s: string, at: nat, e: nat, ps: seq<string>, g: seq<nat>, end: nat)
    requires at < e <= |s| && (IsDue(c, s, e) || IsGlue(s, e)) && Tiles(c, s, ps, g, Behind(s, e), end)
    ensures Tiles(c, s, [s[at..e]] + ps, [at] + g, at, end)
  {
    var qs, f := [s[at..e]] + ps, [at] + g;
    forall i | 0 <= i < |qs| ensures Stands(c, s, qs, f, i) {
      if i > 0 { assert Stands(c, s, ps, g, i - 1); } else { assert Stands(c, s, ps, g, 0); }
    }
  }

  /** Splitting by one rule tiles the text. */
  lemma {:induction false} PiecesTile(rule: Rule, c: Classes, s: string, from: nat, i: nat) returns (f: seq<nat>)
    requires from <= i <= |s| && from < |s|
    requires i == from ==> !CutsAt(rule, c, s, i) && !ConsumesAt(rule, s, i)
    ensures Tiles(c, s, Pieces(rule, c, s, from, i), f, from, |s|)
    decreases |s| - i
  {
    if i == |s| {
      f := [from];
      assert s[from..|s|] == s[from..];
      assert Stands(c, s, [s[from..]], f, 0);
    } else {
      RulesAre(c, s, i);
      if CutsAt(rule, c, s, i) {
        f := PiecesTile(rule, c, s, i, i + 1);
        DueIsNoGlue(rule, c, s, i);
        AddPiece(c, s, from, i, Pieces(rule, c, s, i, i + 1), f, |s|);
        f := [from] + f;
      } else if ConsumesAt(rule, s, i) {
        RulesAre(c, s, i + 1);
        f := PiecesTile(rule, c, s, i + 1, i + 1);
        AddPiece(c, s, from, i, Pieces(rule, c, s, i + 1, i + 1), f, |s|);
        f := [from] + f;
      } else {
        f := PiecesTile(rule, c, s, from, i + 1);
      }
    }
  }

  /** No rule cuts before a glued colon. */
  lemma DueIsNoGlue(rule: Rule, c: Classes, s: string, i: nat)
    requires i < |s| && CutsAt(rule, c, s, i)
    ensures !IsGlue(s, i)
  {
  }

  /** What is cut in a part is cut in the whole. */
  lemma CutInside(c: Classes, q: string, s: string, at: nat, k: nat, next: nat)
    requires at + |q| <= |s| && s[at..at + |q|] == q && IsCut(c, q, k, next)
    ensures IsCut(c, s, at + k, at + next)
  {
    assert forall j :: 0 <= j < |q| ==> q[j] == s[at + j];
  }

  lemma PieceInside(q: string, s: string, at: nat, p: string, k: nat)
    requires at + |q| <= |s| && s[at..at + |q|] == q && IsPieceAt(q, p, k)
    ensures IsPieceAt(s, p, at + k)
  {
    assert forall j :: k <= j < k + |p| ==> q[j] == s[at + j];
  }

  /** A tiling of a part tiles its place in the whole. */
  lemma TilesInside(c: Classes, q: string, s: string, at: nat, ps: seq<string>, f: seq<nat>) returns (g: seq<nat>)
    requires at + |q| <= |s| && s[at..at + |q|] == q && Tiles(c, q, ps, f, 0, |q|)
    ensures Tiles(c, s, ps, g, at, at + |q|)
  {
    g := seq(|f|, i requires 0 <= i < |f| => at + f[i]);
    forall i | 0 <= i < |ps| ensures Stands(c, s, ps, g, i) {
      assert Stands(c, q, ps, f, i);
      PieceInside(q, s, at, ps[i], f[i]);
      if i + 1 < |ps| { CutInside(c, q, s, at, f[i] + |ps[i]|, f[i + 1]); }
    }
  }

  lemma TilesConcat(
    c: Classes, s: string, ps: seq<string>, f: seq<nat>, qs: seq<string>, g: seq<nat>, at: nat, mid: nat, next: nat, end: nat)
    requires Tiles(c, s, ps, f, at, mid) && IsCut(c, s, mid, next) && Tiles(c, s, qs, g, next, end)
    ensures Tiles(c, s, ps + qs, f + g, at, end)
  {
    var all, h := ps + qs, f + g;
    forall i | 0 <= i < |all| ensures Stands(c, s, all, h, i) {
      if i < |ps| { assert Stands(c, s, ps, f, i); } else { assert Stands(c, s, qs, g, i - |ps|); }
    }
  }

  lemma {:induction false} NonEmptyAll(ps: seq<string>)
    requires forall i :: 0 <= i < |ps| ==> ps[i] != ""
    ensures NonEmpty(ps) == ps
  {
    if ps != [] {
      NonEmptyAll(ps[1..]);
      assert ps == [ps[0]] + ps[1..];
    }
  }

  lemma ChunkTiles(rule: Rule, c: Classes, s: string, q: string, at: nat) returns (g: seq<nat>)
    requires IsPieceAt(s, q, at)
    ensures Tiles(c, s, NonEmpty(Pieces(rule, c, q, 0, 0)), g, at, at + |q|)
  {
    var f := PiecesTile(rule, c, q, 0, 0);
    forall i | 0 <= i < |f| ensures Pieces(rule, c, q, 0, 0)[i] != "" { assert Stands(c, q, Pieces(rule, c, q, 0, 0), f, i); }
    NonEmptyAll(Pieces(rule, c, q, 0, 0));
    g := TilesInside(c, q, s, at, Pieces(rule, c, q, 0, 0), f);
  }

  lemma StageCons(rule: Rule, c: Classes, chunks: seq<string>)
    requires chunks != []
    ensures Stage(rule, c, chunks) == NonEmpty(Pieces(rule, c, chunks[0], 0, 0)) + Stage(rule, c, chunks[1..])
    ensures |chunks| == 1 ==> Stage(rule, c, chunks) == NonEmpty(Pieces(rule, c, chunks[0], 0, 0))
  {
    var ps := NonEmpty(Pieces(rule, c, chunks[0], 0, 0));
    if |chunks| == 1 { assert ps + [] == ps; }
  }

  lemma TilesTail(c: Classes, s: string, ps: seq<string>, f: seq<nat>, at: nat, end: nat)
    requires Tiles(c, s, ps, f, at, end) && |ps| > 1
    ensures IsCut(c, s, at + |ps[0]|, f[1]) && Tiles(c, s, ps[1..], f[1..], f[1], end)
  {
    forall i | 0 <= i < |ps| - 1 ensures Stands(c, s, ps[1..], f[1..], i) {
      assert Stands(c, s, ps, f, i + 1);
    }
    assert Stands(c, s, ps, f, 0);
  }

  /** A further stage tiles the same stretch of the text. */
  lemma {:induction false} StageTiles(rule: Rule, c: Classes, s: string, chunks: seq<string>, f: seq<nat>, at: nat, end: nat)
    returns (g: seq<nat>)
    requires Tiles(c, s, chunks, f, at, end)
    ensures Tiles(c, s, Stage(rule, c, chunks), g, at, end)
    decreases |chunks|
  {
    StageCons(rule, c, chunks);
    assert Stands(c, s, chunks, f, 0);
    g := ChunkTiles(rule, c, s, chunks[0], at);
    if |chunks| > 1 {
      TilesTail(c, s, chunks, f, at, end);
      var h := StageTiles(rule, c, s, chunks[1..], f[1..], f[1], end);
      TilesConcat(c, s, NonEmpty(Pieces(rule, c, chunks[0], 0, 0)), g, Stage(rule, c, chunks[1..]), h,
                  at, at + |chunks[0]|, f[1], end);
      g := g + h;
    }
  }

  lemma StagesTile(c: Classes, s: string) returns (f: seq<nat>)
    requires s != ""
    ensures Tiles(c, s, Stage(DigitRun, c, Stage(Camel, c, Stage(Delimiter, c, [s]))), f, 0, |s|)
  {
    assert s[0..|s|] == s;
    assert Stands(c, s, [s], [0], 0);
    f := StageTiles(Delimiter, c, s, [s], [0], 0, |s|);
    f := StageTiles(Camel, c, s, Stage(Delimiter, c, [s]), f, 0, |s|);
    f := StageTiles(DigitRun, c, s, Stage(Camel, c, Stage(Delimiter, c, [s])), f, 0, |s|);
  }

  /** A token is cut only where a rule says so: its pieces tile the cleaned text. */
  lemma CutsAreDue(c: Classes, token: string) returns (f: seq<nat>)
    requires Cleaned(token) != ""
    ensures Tiles(c, Cleaned(token), SplitToken(c, token), f, 0, |Cleaned(token)|)
  {
    f := StagesTile(c, Cleaned(token));
  }

  // ----- and everywhere a rule says so -----

  predicate IsUncut(rule: Rule, c: Classes, s: string) {
    forall k :: 0 < k < |s| ==> !CutsAt(rule, c, s, k) && !ConsumesAt(rule, s, k)
  }

  lemma UncutPart(rule: Rule, c: Classes, s: string, a: nat, b: nat)
    requires a <= b <= |s| && forall k :: a < k < b ==> !CutsAt(rule, c, s, k) && !ConsumesAt(rule, s, k)
    ensures IsUncut(rule, c, s[a..b])
  {
    var p := s[a..b];
    forall k | 0 < k < |p| ensures !CutsAt(rule, c, p, k) && !ConsumesAt(rule, p, k) {
      assert forall j :: 0 <= j < |p| ==> p[j] == s[a + j];
      assert !CutsAt(rule, c, s, a + k) && !ConsumesAt(rule, s, a + k);
    }
  }

  lemma {:induction false} PiecesUncut(rule: Rule, c: Classes, s: string, from: nat, i: nat)
    requires from <= i <= |s| && forall k :: from < k < i ==> !CutsAt(rule, c, s, k) && !ConsumesAt(rule, s, k)
    ensures forall p :: p in Pieces(rule, c, s, from, i) ==> IsUncut(rule, c, p)
    decreases |s| - i
  {
    if i == |s| {
      UncutPart(rule, c, s, from, |s|);
      assert s[from..|s|] == s[from..];
    } else if CutsAt(rule, c, s, i) {
      UncutPart(rule, c, s, from, i);
      PiecesUncut(rule, c, s, i, i + 1);
    } else if ConsumesAt(rule, s, i) {
      UncutPart(rule, c, s, from, i);
      PiecesUncut(rule, c, s, i + 1, i + 1);
    } else {
      PiecesUncut(rule, c, s, from, i + 1);
    }
  }

  /** Splitting by another rule makes no new place to cut by this one. */
  lemma {:induction false} PiecesStayUncut(rule: Rule, other: Rule, c: Classes, s: string, from: nat, i: nat)
    requires from <= i <= |s| && IsUncut(rule, c, s)
    ensures forall p :: p in Pieces(other, c, s, from, i) ==> IsUncut(rule, c, p)
    decreases |s| - i
  {
    if i == |s| {
      UncutPart(rule, c, s, from, |s|);
      assert s[from..|s|] == s[from..];
    } else if CutsAt(other, c, s, i) {
      UncutPart(rule, c, s, from, i);
      PiecesStayUncut(rule, other, c, s, i, i + 1);
    } else if ConsumesAt(other, s, i) {
      UncutPart(rule, c, s, from, i);
      PiecesStayUncut(rule, other, c, s, i + 1, i + 1);
    } else {
      PiecesStayUncut(rule, other, c, s, from, i + 1);
    }
  }

  lemma {:induction false} NonEmptyMembers(ps: seq<string>)
    ensures forall p :: p in NonEmpty(ps) <==> p in ps && p != ""
  {
    if ps != [] { NonEmptyMembers(ps[1..]); assert ps == [ps[0]] + ps[1..]; }
  }

  lemma {:induction false} StageUncut(rule: Rule, c: Classes, chunks: seq<string>)
    ensures forall p :: p in Stage(rule, c, chunks) ==> IsUncut(rule, c, p)
  {
    if chunks != [] {
      PiecesUncut(rule, c, chunks[0], 0, 0);
      NonEmptyMembers(Pieces(rule, c, chunks[0], 0, 0));
      StageUncut(rule, c, chunks[1..]);
    }
  }

  lemma {:induction false} StageStaysUncut(rule: Rule, other: Rule, c: Classes, chunks: seq<string>)
    requires forall q :: q in chunks ==> IsUncut(rule, c, q)
    ensures forall p :: p in Stage(other, c, chunks) ==> IsUncut(rule, c, p)
  {
    if chunks != [] {
      assert chunks[0] in chunks;
      PiecesStayUncut(rule, other, c, chunks[0], 0, 0);
      NonEmptyMembers(Pieces(other, c, chunks[0], 0, 0));
      StageStaysUncut(rule, other, c, chunks[1..]);
    }
  }

  lemma PiecesAreUncut(c: Classes, token: string, p: string)
    requires p in SplitToken(c, token)
    ensures IsUncut(Delimiter, c, p) && IsUncut(Camel, c, p) && IsUncut(DigitRun, c, p)
  {
    var s := Cleaned(token);
    var first := Stage(Delimiter, c, [s]);
    var second := Stage(Camel, c, first);
    SplitTokenJoined(c, token);
    var f := StagesTile(c, s);
    StageUncut(Delimiter, c, [s]);
    StageUncut(Camel, c, first);
    StageUncut(DigitRun, c, second);
    StageStaysUncut(Delimiter, Camel, c, first);
    StageStaysUncut(Delimiter, DigitRun, c, second);
    StageStaysUncut(Camel, DigitRun, c, second);
  }

  lemma UncutIsWhole(c: Classes, p: string)
    requires IsUncut(Delimiter, c, p) && IsUncut(Camel, c, p) && IsUncut(DigitRun, c, p)
    ensures IsWhole(c, p)
  {
    forall k: nat ensures !IsDue(c, p, k) && !IsGlue(p, k) {
      if 0 < k < |p| { RulesAre(c, p, k); }
    }
  }

  /** No piece has a place left to cut. */
  lemma PiecesAreWhole(c: Classes, token: string)
    ensures forall p :: p in SplitToken(c, token) ==> IsWhole(c, p)
  {
    forall p | p in SplitToken(c, token) ensures IsWhole(c, p) {
      PiecesAreUncut(c, token, p);
      UncutIsWhole(c, p);
    }
  }

  // ----- cleaning -----

  /** Cleaning drops the private-use glyphs and replacement characters, and nothing else. */
  lemma {:induction false} CleanedIs(s: string)
    ensures forall k :: 0 <= k < |Cleaned(s)| ==> !('\U{E000}' <= Cleaned(s)[k] <= '\U{F8FF}') && Cleaned(s)[k] != '\U{FFFD}'
    ensures (forall k :: 0 <= k < |s| ==> !('\U{E000}' <= s[k] <= '\U{F8FF}') && s[k] != '\U{FFFD}') ==> Cleaned(s) == s
  {
    if s != "" { CleanedIs(s[1..]); }
  }

  lemma {:induction false} CleanedConcat(s: string, t: string)
    ensures Cleaned(s + t) == Cleaned(s) + Cleaned(t)
  {
    if s == "" {
      assert s + t == t;
    } else {
      assert (s + t)[0] == s[0] && (s + t)[1..] == s[1..] + t;
      CleanedConcat(s[1..], t);
    }
  }

  // ----- once is enough -----

  lemma {:induction false} UncutPieces(rule: Rule, c: Classes, s: string, i: nat)
    requires i <= |s| && IsUncut(rule, c, s)
    ensures Pieces(rule, c, s, 0, i) == [s]
    decreases |s| - i
  {
    if i == |s| {
      assert s[0..] == s;
    } else {
      UncutPieces(rule, c, s, i + 1);
    }
  }

  lemma UncutStage(rule: Rule, c: Classes, s: string)
    requires s != "" && IsUncut(rule, c, s)
    ensures Stage(rule, c, [s]) == [s]
  {
    UncutPieces(rule, c, s, 0);
    assert [s][1..] == [];
    assert NonEmpty([s]) == [s];
    assert Stage(rule, c, [s][1..]) == [];
  }

  lemma PieceIsClean(c: Classes, token: string, p: string)
    requires p in SplitToken(c, token)
    ensures Cleaned(p) == p
  {
    var s := Cleaned(token);
    SplitTokenJoined(c, token);
    var f := CutsAreDue(c, token);
    CleanedIs(token);
    var i :| 0 <= i < |SplitToken(c, token)| && SplitToken(c, token)[i] == p;
    assert Stands(c, s, SplitToken(c, token), f, i);
    assert forall k :: 0 <= k < |p| ==> p[k] == s[f[i] + k];
    CleanedIs(p);
  }

  /** A piece splits no further. */
  lemma PieceSplitsIntoItself(c: Classes, token: string, p: string)
    requires p in SplitToken(c, token)
    ensures SplitToken(c, p) == [p]
  {
    SplitTokenJoined(c, token);
    PieceIsClean(c, token, p);
    PiecesAreUncut(c, token, p);
    UncutStage(Delimiter, c, p);
    UncutStage(Camel, c, p);
    UncutStage(DigitRun, c, p);
  }

  lemma ExpandedOnce(c: Classes, token: string, p: string)
    requires p in ExpandedToken(c, token)
    ensures ExpandedToken(c, p) == [p]
  {
    if SplitToken(c, token) != [] { PieceSplitsIntoItself(c, token, p); }
  }

  lemma {:induction false} FlattenMember(c: Classes, tokens: seq<string>, p: string)
    requires p in RepairedTokens(c, tokens)
    ensures ExpandedToken(c, p) == [p]
  {
    var head, rest := ExpandedToken(c, tokens[0]), RepairedTokens(c, tokens[1..]);
    assert Blocks(c, tokens)[1..] == Blocks(c, tokens[1..]);
    assert RepairedTokens(c, tokens) == head + rest;
    if p in head { ExpandedOnce(c, tokens[0], p); } else { FlattenMember(c, tokens[1..], p); }
  }

  lemma {:induction false} FlattenSingles(bs: seq<seq<string>>, tokens: seq<string>)
    requires |bs| == |tokens| && forall i :: 0 <= i < |tokens| ==> bs[i] == [tokens[i]]
    ensures Flatten(bs) == tokens
  {
    if bs != [] {
      FlattenSingles(bs[1..], tokens[1..]);
      assert tokens == [tokens[0]] + tokens[1..];
    }
  }

  lemma SingleBlocks(c: Classes, tokens: seq<string>)
    requires forall p :: p in tokens ==> ExpandedToken(c, p) == [p]
    ensures RepairedTokens(c, tokens) == tokens
    ensures forall i :: 0 <= i < |tokens| ==> Blocks(c, tokens)[i] == [tokens[i]]
  {
    forall i | 0 <= i < |tokens| ensures Blocks(c, tokens)[i] == [tokens[i]] {
      BlockIs(c, tokens, i);
      assert tokens[i] in tokens;
    }
    FlattenSingles(Blocks(c, tokens), tokens);
  }

  lemma {:induction false} SingleTags(tags: seq<string>, bs: seq<seq<string>>, i: nat)
    requires |tags| == |bs| && Solid(bs) && (forall k :: 0 <= k < |bs| ==> |bs[k]| == 1) && i <= |bs|
    ensures SpreadFrom(tags, bs, i) == tags[i..]
    decreases |bs| - i
  {
    if i < |bs| {
      SingleTags(tags, bs, i + 1);
      assert tags[i..] == [tags[i]] + tags[i + 1..];
    }
  }

  /** Repairing a repaired record changes nothing. */
  lemma RepairIdempotent(c: Classes, tokens: seq<string>, tags: seq<string>)
    requires |tokens| == |tags|
    ensures var again, tagged := RepairedTokens(c, tokens), RepairedTags(c, tokens, tags);
            |again| == |tagged| && RepairedTokens(c, again) == again && RepairedTags(c, again, tagged) == tagged
  {
    var again, tagged := RepairedTokens(c, tokens), RepairedTags(c, tokens, tags);
    RepairKeepsEntities(c, tokens, tags);
    forall p | p in again ensures ExpandedToken(c, p) == [p] { FlattenMember(c, tokens, p); }
    SingleBlocks(c, again);
    SingleTags(tagged, Blocks(c, again), 0);
    assert tagged[0..] == tagged;
  }
}
