/** Re-splitting glued tokens of a BIO-tagged record without changing the entities it encodes. */
module BioRepair {

  // ----- splitting a token -----

  /** What `\S` and `\d` mean to the regular-expression engine. */
  datatype Classes = Classes(isSpace: char -> bool, isDecimal: char -> bool)

  predicate IsGlyph(c: char) {
    '\U{E000}' <= c <= '\U{F8FF}' || c == '\U{FFFD}'
  }

  predicate IsLower(c: char) { 'a' <= c <= 'z' }
  predicate IsUpper(c: char) { 'A' <= c <= 'Z' }
  predicate IsLetter(c: char) { IsLower(c) || IsUpper(c) }
  predicate IsDigit(c: char) { '0' <= c <= '9' }

  /** The private-use glyphs and replacement characters removed. */
  function Cleaned(s: string): string {
    if s == "" then "" else (if IsGlyph(s[0]) then "" else [s[0]]) + Cleaned(s[1..])
  }

  datatype Rule = Delimiter | Camel | DigitRun

  /** The rule matches the empty string before position `i`. */
  predicate CutsAt(rule: Rule, c: Classes, s: string, i: nat)
    requires i < |s|
  {
    match rule
    case Delimiter => i > 0 && s[i - 1] in [',', ';'] && !c.isSpace(s[i])
    case Camel => i > 0 && (IsLower(s[i - 1]) || IsDigit(s[i - 1])) && IsUpper(s[i])
    case DigitRun => i >= 6 && (forall k :: i - 6 <= k < i ==> c.isDecimal(s[k])) && IsLetter(s[i])
  }

  /** The rule matches, and so consumes, the character at `i`: a colon glued between two labels. */
  predicate ConsumesAt(rule: Rule, s: string, i: nat)
    requires i < |s|
  {
    rule == Delimiter && 0 < i < |s| - 1 && s[i] == ':'
    && (IsLetter(s[i - 1]) || IsDigit(s[i - 1])) && (IsLetter(s[i + 1]) || IsDigit(s[i + 1]))
  }

  /** `re.split`: the pieces between matches, scanning from `i` with the current piece begun at
      `from`. */
  function Pieces(rule: Rule, c: Classes, s: string, from: nat, i: nat): seq<string>
    requires from <= i <= |s|
    decreases |s| - i
  {
    if i == |s| then [s[from..]]
    else if CutsAt(rule, c, s, i) then [s[from..i]] + Pieces(rule, c, s, i, i + 1)
    else if ConsumesAt(rule, s, i) then [s[from..i]] + Pieces(rule, c, s, i + 1, i + 1)
    else Pieces(rule, c, s, from, i + 1)
  }

  function NonEmpty(ps: seq<string>): seq<string> {
    if ps == [] then [] else (if ps[0] == "" then [] else [ps[0]]) + NonEmpty(ps[1..])
  }

  /** One stage: every chunk split, empty pieces dropped. */
  function Stage(rule: Rule, c: Classes, chunks: seq<string>): seq<string> {
    if chunks == [] then [] else NonEmpty(Pieces(rule, c, chunks[0], 0, 0)) + Stage(rule, c, chunks[1..])
  }

  /** `split_token`. */
  function SplitToken(c: Classes, token: string): seq<string> {
    var cleaned := Cleaned(token);
    if cleaned == "" then []
    else
      var pieces := Stage(DigitRun, c, Stage(Camel, c, Stage(Delimiter, c, [cleaned])));
      if pieces != [] then pieces else [cleaned]
  }

  function Joined(ps: seq<string>): string {
    if ps == [] then "" else ps[0] + Joined(ps[1..])
  }

  /** The text from `i` on, without the colons that separate two labels. */
  function WithoutColons(s: string, i: nat): string
    requires i <= |s|
    decreases |s| - i
  {
    if i == |s| then "" else (if ConsumesAt(Delimiter, s, i) then "" else [s[i]]) + WithoutColons(s, i + 1)
  }

  lemma {:induction false} JoinedConcat(ps: seq<string>, qs: seq<string>)
    ensures Joined(ps + qs) == Joined(ps) + Joined(qs)
  {
    if ps == [] {
      assert ps + qs == qs;
    } else {
      assert (ps + qs)[1..] == ps[1..] + qs;
      JoinedConcat(ps[1..], qs);
      assert ps[0] + (Joined(ps[1..]) + Joined(qs)) == (ps[0] + Joined(ps[1..])) + Joined(qs);
    }
  }

  lemma JoinedCons(p: string, qs: seq<string>)
    ensures Joined([p] + qs) == p + Joined(qs)
  {
    assert ([p] + qs)[1..] == qs;
  }

  lemma {:induction false} NonEmptyJoined(ps: seq<string>)
    ensures Joined(NonEmpty(ps)) == Joined(ps)
    ensures forall p :: p in NonEmpty(ps) ==> p != ""
  {
    if ps != [] {
      NonEmptyJoined(ps[1..]);
      if ps[0] != "" {
        JoinedCons(ps[0], NonEmpty(ps[1..]));
      } else {
        assert [] + NonEmpty(ps[1..]) == NonEmpty(ps[1..]);
      }
    }
  }

  lemma StartPiece(s: string, i: nat, rest: string)
    requires i < |s|
    ensures s[i..i + 1] + rest == [s[i]] + rest
  {
    assert s[i..i + 1] == [s[i]];
  }

  lemma CutJoined(c: Classes, s: string, from: nat, i: nat)
    requires from <= i < |s| && CutsAt(Delimiter, c, s, i)
    requires Joined(Pieces(Delimiter, c, s, i, i + 1)) == s[i..i + 1] + WithoutColons(s, i + 1)
    ensures Joined(Pieces(Delimiter, c, s, from, i)) == s[from..i] + WithoutColons(s, i)
  {
    JoinedCons(s[from..i], Pieces(Delimiter, c, s, i, i + 1));
    StartPiece(s, i, WithoutColons(s, i + 1));
  }

  lemma ConsumedJoined(c: Classes, s: string, from: nat, i: nat)
    requires from <= i < |s| && !CutsAt(Delimiter, c, s, i) && ConsumesAt(Delimiter, s, i)
    requires Joined(Pieces(Delimiter, c, s, i + 1, i + 1)) == WithoutColons(s, i + 1)
    ensures Joined(Pieces(Delimiter, c, s, from, i)) == s[from..i] + WithoutColons(s, i)
  {
    JoinedCons(s[from..i], Pieces(Delimiter, c, s, i + 1, i + 1));
  }

  lemma GrowPiece(s: string, from: nat, i: nat, rest: string)
    requires from <= i < |s|
    ensures s[from..i + 1] + rest == s[from..i] + ([s[i]] + rest)
  {
    assert s[from..i + 1] == s[from..i] + [s[i]];
  }

  lemma LastJoined(piece: string)
    ensures Joined([piece]) == piece
  {
    assert [piece][1..] == [];
  }

  lemma {:induction false} DelimiterPieces(c: Classes, s: string, from: nat, i: nat)
    requires from <= i <= |s|
    ensures Joined(Pieces(Delimiter, c, s, from, i)) == s[from..i] + WithoutColons(s, i)
    decreases |s| - i
  {
    if i == |s| {
      LastJoined(s[from..]);
    } else if CutsAt(Delimiter, c, s, i) {
      DelimiterPieces(c, s, i, i + 1);
      CutJoined(c, s, from, i);
    } else if ConsumesAt(Delimiter, s, i) {
      DelimiterPieces(c, s, i + 1, i + 1);
      assert s[i + 1..i + 1] == "";
      ConsumedJoined(c, s, from, i);
    } else {
      DelimiterPieces(c, s, from, i + 1);
      GrowPiece(s, from, i, WithoutColons(s, i + 1));
    }
  }

  lemma {:induction false} PlainPieces(rule: Rule, c: Classes, s: string, from: nat, i: nat)
    requires rule != Delimiter && from <= i <= |s|
    ensures Joined(Pieces(rule, c, s, from, i)) == s[from..]
    decreases |s| - i
  {
    if i == |s| {
      assert Joined([s[from..]]) == s[from..] by { assert [s[from..]][1..] == []; }
    } else if CutsAt(rule, c, s, i) {
      PlainPieces(rule, c, s, i, i + 1);
      JoinedCons(s[from..i], Pieces(rule, c, s, i, i + 1));
      assert s[from..i] + s[i..] == s[from..];
    } else {
      PlainPieces(rule, c, s, from, i + 1);
    }
  }

  lemma {:induction false} StageJoined(rule: Rule, c: Classes, chunks: seq<string>)
    requires rule != Delimiter
    ensures Joined(Stage(rule, c, chunks)) == Joined(chunks)
    ensures forall p :: p in Stage(rule, c, chunks) ==> p != ""
  {
    if chunks != [] {
      var ps := Pieces(rule, c, chunks[0], 0, 0);
      PlainPieces(rule, c, chunks[0], 0, 0);
      NonEmptyJoined(ps);
      StageJoined(rule, c, chunks[1..]);
      JoinedConcat(NonEmpty(ps), Stage(rule, c, chunks[1..]));
    }
  }

  /** The pieces of a token are non-empty and concatenate back to it, less its glyphs and the colons
      that separate two labels; there are none exactly if the token was all glyphs. */
  lemma SplitTokenJoined(c: Classes, token: string)
    ensures Joined(SplitToken(c, token)) == WithoutColons(Cleaned(token), 0)
    ensures forall p :: p in SplitToken(c, token) ==> p != ""
    ensures SplitToken(c, token) == [] <==> Cleaned(token) == ""
  {
    var cleaned := Cleaned(token);
    if cleaned != "" {
      var ps := Pieces(Delimiter, c, cleaned, 0, 0);
      DelimiterPieces(c, cleaned, 0, 0);
      NonEmptyJoined(ps);
      var first := Stage(Delimiter, c, [cleaned]);
      assert first == NonEmpty(ps) by {
        assert Stage(Delimiter, c, [cleaned][1..]) == [];
        assert NonEmpty(ps) + [] == NonEmpty(ps);
      }
      StageJoined(Camel, c, first);
      StageJoined(DigitRun, c, Stage(Camel, c, first));
      assert WithoutColons(cleaned, 0) != "";
    }
  }

  // ----- repairing a record -----

  predicate StartsB(tag: string) { |tag| >= 2 && tag[0] == 'B' && tag[1] == '-' }
  predicate StartsI(tag: string) { |tag| >= 2 && tag[0] == 'I' && tag[1] == '-' }

  function Repeated(tag: string, n: nat): seq<string> {
    if n == 0 then [] else [tag] + Repeated(tag, n - 1)
  }

  /** The tags the pieces of one token get. */
  function ExpandedTag(tag: string, n: nat): (r: seq<string>)
    requires n > 0
  {
    if n == 1 then [tag]
    else if StartsB(tag) then [tag] + Repeated("I-" + tag[2..], n - 1)
    else if StartsI(tag) then Repeated(tag, n)
    else Repeated("O", n)
  }

  /** The tokens one token becomes: its pieces, or itself if nothing is left of it. */
  function ExpandedToken(c: Classes, token: string): (r: seq<string>)
    ensures r != []
  {
    if SplitToken(c, token) == [] then [token] else SplitToken(c, token)
  }

  /** The block of pieces each token becomes. */
  function Blocks(c: Classes, tokens: seq<string>): (bs: seq<seq<string>>)
    ensures |bs| == |tokens| && Solid(bs)
  {
    if tokens == [] then [] else [ExpandedToken(c, tokens[0])] + Blocks(c, tokens[1..])
  }

  predicate Solid(bs: seq<seq<string>>) {
    forall i :: 0 <= i < |bs| ==> |bs[i]| > 0
  }

  function Flatten(bs: seq<seq<string>>): seq<string> {
    if bs == [] then [] else bs[0] + Flatten(bs[1..])
  }

  /** Each tag from the `i`-th on, spread over its block. */
  function SpreadFrom(tags: seq<string>, bs: seq<seq<string>>, i: nat): seq<string>
    requires |tags| == |bs| && Solid(bs) && i <= |bs|
    decreases |bs| - i
  {
    if i == |bs| then [] else ExpandedTag(tags[i], |bs[i]|) + SpreadFrom(tags, bs, i + 1)
  }

  function Spread(tags: seq<string>, bs: seq<seq<string>>): seq<string>
    requires |tags| == |bs| && Solid(bs)
  {
    SpreadFrom(tags, bs, 0)
  }

  function RepairedTokens(c: Classes, tokens: seq<string>): seq<string> {
    Flatten(Blocks(c, tokens))
  }

  function RepairedTags(c: Classes, tokens: seq<string>, tags: seq<string>): seq<string>
    requires |tokens| == |tags|
  {
    Spread(tags, Blocks(c, tokens))
  }

  lemma {:induction false} RepeatedAt(tag: string, n: nat)
    ensures |Repeated(tag, n)| == n && forall i :: 0 <= i < n ==> Repeated(tag, n)[i] == tag
  {
    if n > 0 { RepeatedAt(tag, n - 1); }
  }

  lemma ExpandedTagAt(tag: string, n: nat)
    requires n > 0
    ensures |ExpandedTag(tag, n)| == n
    ensures forall i :: 0 <= i < n ==>
              ExpandedTag(tag, n)[i] ==
              if n == 1 then tag
              else if StartsB(tag) then (if i == 0 then "B-" + tag[2..] else "I-" + tag[2..])
              else if StartsI(tag) then "I-" + tag[2..]
              else "O"
  {
    if n > 1 {
      if StartsB(tag) {
        RepeatedAt("I-" + tag[2..], n - 1);
        assert tag == tag[..2] + tag[2..];
      } else if StartsI(tag) {
        RepeatedAt(tag, n);
        assert tag == tag[..2] + tag[2..];
      } else {
        RepeatedAt("O", n);
      }
    }
  }

  /** `repair_record`. */
  method RepairRecord(c: Classes, tokens: seq<string>, tags: seq<string>) returns (newTokens: seq<string>, newTags: seq<string>)
    requires |tokens| == |tags|
    ensures newTokens == RepairedTokens(c, tokens)
    ensures newTags == RepairedTags(c, tokens, tags)
  {
    newTokens, newTags := [], [];
    ghost var bs := Blocks(c, tokens);
    assert bs[0..] == bs;
    for k := 0 to |tokens|
      invariant Flatten(bs) == newTokens + Flatten(bs[k..])
      invariant Spread(tags, bs) == newTags + SpreadFrom(tags, bs, k)
    {
      var kept, expandedTags := RepairToken(c, tokens[k], tags[k]);
      BlockAppended(c, tokens, tags, k, newTokens, newTags);
      newTokens := newTokens + kept;
      newTags := newTags + expandedTags;
    }
  }

  /** One more block moves from what is left to what is done. */
  lemma BlockAppended(c: Classes, tokens: seq<string>, tags: seq<string>, k: nat, done: seq<string>, doneTags: seq<string>)
    requires |tokens| == |tags| && k < |tokens|
    ensures var bs, kept := Blocks(c, tokens), ExpandedToken(c, tokens[k]);
            && done + Flatten(bs[k..]) == (done + kept) + Flatten(bs[k + 1..])
            && doneTags + SpreadFrom(tags, bs, k) == (doneTags + ExpandedTag(tags[k], |kept|)) + SpreadFrom(tags, bs, k + 1)
  {
    var bs, kept := Blocks(c, tokens), ExpandedToken(c, tokens[k]);
    BlockIs(c, tokens, k);
    FlattenTail(bs, k);
    ConcatAssoc(done, kept, Flatten(bs[k + 1..]));
    ConcatAssoc(doneTags, ExpandedTag(tags[k], |kept|), SpreadFrom(tags, bs, k + 1));
  }

  lemma FlattenTail(bs: seq<seq<string>>, k: nat)
    requires k < |bs|
    ensures Flatten(bs[k..]) == bs[k] + Flatten(bs[k + 1..])
  {
    assert bs[k..][1..] == bs[k + 1..];
  }

  lemma ConcatAssoc(a: seq<string>, b: seq<string>, c: seq<string>)
    ensures a + (b + c) == (a + b) + c
  {
  }

  lemma {:induction false} BlockIs(c: Classes, tokens: seq<string>, k: nat)
    requires k < |tokens|
    ensures Blocks(c, tokens)[k] == ExpandedToken(c, tokens[k])
  {
    if k > 0 { BlockIs(c, tokens[1..], k - 1); }
  }

  /** One turn of the loop. */
  method RepairToken(c: Classes, token: string, tag: string) returns (kept: seq<string>, expandedTags: seq<string>)
    ensures kept == ExpandedToken(c, token) && expandedTags == ExpandedTag(tag, |kept|)
  {
    var pieces := SplitToken(c, token);
    kept := if pieces == [] then [token] else pieces;
    expandedTags := ExpandTag(tag, |kept|);
  }

  /** The inner loop: one tag per piece. */
  method ExpandTag(tag: string, n: nat) returns (r: seq<string>)
    requires n > 0
    ensures r == ExpandedTag(tag, n)
  {
    ExpandedTagAt(tag, n);
    if n <= 1 {
      return [tag];
    }
    r := [];
    var tagged := StartsB(tag) || StartsI(tag);
    for i := 0 to n
      invariant r == ExpandedTag(tag, n)[..i]
    {
      if !tagged {
        r := r + ["O"];
      } else {
        r := r + [if i == 0 && StartsB(tag) then "B-" + tag[2..] else "I-" + tag[2..]];
      }
    }
  }

  // ----- what the tags mean -----

  datatype Entity = Entity(kind: string, start: nat, end: nat)

  function RunEnd(tags: seq<string>, j: nat, kind: string): (e: nat)
    requires j <= |tags|
    ensures j <= e <= |tags|
    decreases |tags| - j
  {
    if j < |tags| && tags[j] == "I-" + kind then RunEnd(tags, j + 1, kind) else j
  }

  /** The entities from position `i` on: each `B-` and the `I-` of its type that follow. */
  function Decode(tags: seq<string>, i: nat): seq<Entity>
    requires i <= |tags|
    decreases |tags| - i
  {
    if i == |tags| then []
    else if StartsB(tags[i]) then
      var e := RunEnd(tags, i + 1, tags[i][2..]);
      [Entity(tags[i][2..], i, e)] + Decode(tags, e)
    else Decode(tags, i + 1)
  }

  /** Every `I-` continues an entity of its own type. */
  predicate WellFormed(tags: seq<string>) {
    forall i :: 0 <= i < |tags| ==> WellFormedAt(tags, i)
  }

  predicate WellFormedAt(tags: seq<string>, i: nat)
    requires i < |tags|
  {
    && (tags[i] == "O" || StartsB(tags[i]) || StartsI(tags[i]))
    && (StartsI(tags[i]) ==> i > 0 && Continues(tags[i - 1], tags[i]))
  }

  predicate Continues(before: string, tag: string) {
    (StartsB(before) || StartsI(before)) && |tag| >= 2 && before[2..] == tag[2..]
  }

  /** Where block `i` begins. */
  function Offset(bs: seq<seq<string>>, i: nat): nat
    requires i <= |bs|
  {
    if i == 0 then 0 else Offset(bs, i - 1) + |bs[i - 1]|
  }

  function Moved(bs: seq<seq<string>>, es: seq<Entity>): seq<Entity>
    requires forall e :: e in es ==> e.start <= |bs| && e.end <= |bs|
  {
    if es == [] then []
    else
      assert es[0] in es;
      [Entity(es[0].kind, Offset(bs, es[0].start), Offset(bs, es[0].end))] + Moved(bs, es[1..])
  }

  lemma DropTwice(s: seq<string>, a: nat, n: nat)
    requires a <= |s| && n <= |s[a..]|
    ensures a + n <= |s| && s[a..][n..] == s[a + n..] && s[a..][..n] == s[a..a + n]
  {
  }

  lemma SplitFirst(a: seq<string>, b: seq<string>)
    ensures (a + b)[..|a|] == a && (a + b)[|a|..] == b
  {
  }

  /** The tags of the blocks before the `i`-th. */
  function SpreadTo(tags: seq<string>, bs: seq<seq<string>>, i: nat): seq<string>
    requires |tags| == |bs| && Solid(bs) && i <= |bs|
  {
    if i == 0 then [] else SpreadTo(tags, bs, i - 1) + ExpandedTag(tags[i - 1], |bs[i - 1]|)
  }

  lemma MoveBlock(done: seq<string>, block: seq<string>, rest: seq<string>, left: seq<string>, all: seq<string>)
    requires left == block + rest && done + left == all
    ensures (done + block) + rest == all
  {
  }

  lemma {:induction false} SpreadSplit(tags: seq<string>, bs: seq<seq<string>>, i: nat)
    requires |tags| == |bs| && Solid(bs) && i <= |bs|
    ensures |SpreadTo(tags, bs, i)| == Offset(bs, i)
    ensures SpreadTo(tags, bs, i) + SpreadFrom(tags, bs, i) == Spread(tags, bs)
  {
    if i > 0 {
      SpreadSplit(tags, bs, i - 1);
      var done, block, rest := SpreadTo(tags, bs, i - 1), ExpandedTag(tags[i - 1], |bs[i - 1]|), SpreadFrom(tags, bs, i);
      ExpandedTagAt(tags[i - 1], |bs[i - 1]|);
      MoveBlock(done, block, rest, SpreadFrom(tags, bs, i - 1), Spread(tags, bs));
    }
  }

  /** The tags from block `i` on are the spread tags from its offset on. */
  lemma SpreadSuffix(tags: seq<string>, bs: seq<seq<string>>, i: nat)
    requires |tags| == |bs| && Solid(bs) && i <= |bs|
    ensures Offset(bs, i) <= |Spread(tags, bs)|
    ensures Spread(tags, bs)[Offset(bs, i)..] == SpreadFrom(tags, bs, i)
  {
    SpreadSplit(tags, bs, i);
    SplitFirst(SpreadTo(tags, bs, i), SpreadFrom(tags, bs, i));
  }

  lemma {:induction false} FlattenSuffix(bs: seq<seq<string>>, i: nat)
    requires i <= |bs|
    ensures Offset(bs, i) <= |Flatten(bs)|
    ensures Flatten(bs)[Offset(bs, i)..] == Flatten(bs[i..])
  {
    if i == 0 {
      assert bs[0..] == bs;
    } else {
      FlattenSuffix(bs, i - 1);
      FlattenTail(bs, i - 1);
      SplitFirst(bs[i - 1], Flatten(bs[i..]));
      DropTwice(Flatten(bs), Offset(bs, i - 1), |bs[i - 1]|);
    }
  }

  /** Each block carries its tag, spread over it. */
  lemma SpreadBlock(tags: seq<string>, bs: seq<seq<string>>, i: nat)
    requires |tags| == |bs| && Solid(bs) && i < |bs|
    ensures Offset(bs, i) < Offset(bs, i + 1) <= |Spread(tags, bs)|
    ensures Spread(tags, bs)[Offset(bs, i)..Offset(bs, i + 1)] == ExpandedTag(tags[i], |bs[i]|)
  {
    SpreadSuffix(tags, bs, i);
    SpreadSuffix(tags, bs, i + 1);
    ExpandedTagAt(tags[i], |bs[i]|);
    SplitFirst(ExpandedTag(tags[i], |bs[i]|), SpreadFrom(tags, bs, i + 1));
    DropTwice(Spread(tags, bs), Offset(bs, i), |bs[i]|);
  }

  lemma SpreadLength(tags: seq<string>, bs: seq<seq<string>>)
    requires |tags| == |bs| && Solid(bs)
    ensures |Spread(tags, bs)| == |Flatten(bs)| == Offset(bs, |bs|)
  {
    SpreadSuffix(tags, bs, |bs|);
    FlattenSuffix(bs, |bs|);
  }

  /** The blocks from `i` to `j` are the stretch between their offsets. */
  lemma {:induction false} FlattenRange(bs: seq<seq<string>>, i: nat, j: nat)
    requires i <= j <= |bs|
    ensures Offset(bs, i) <= Offset(bs, j) <= |Flatten(bs)|
    ensures Flatten(bs)[Offset(bs, i)..Offset(bs, j)] == Flatten(bs[i..j])
    decreases j - i
  {
    FlattenSuffix(bs, i);
    FlattenSuffix(bs, j);
    if i < j {
      FlattenRange(bs, i + 1, j);
      var out := Flatten(bs);
      var a, b, d := Offset(bs, i), Offset(bs, i + 1), Offset(bs, j);
      assert bs[i..][1..] == bs[i + 1..];
      SplitFirst(bs[i], Flatten(bs[i + 1..]));
      DropTwice(out, a, |bs[i]|);
      assert bs[i..j][1..] == bs[i + 1..j];
      assert out[a..d] == out[a..b] + out[b..d];
    } else {
      assert bs[i..j] == [];
    }
  }

  // ----- decoding is preserved -----

  lemma Marked(tag: string, kind: string)
    ensures StartsI(tag) ==> (tag == "I-" + kind <==> tag[2..] == kind)
    ensures tag == "I-" + kind ==> StartsI(tag)
    ensures StartsB("B-" + kind) && ("B-" + kind)[2..] == kind && StartsI("I-" + kind) && ("I-" + kind)[2..] == kind
    ensures !StartsB("I-" + kind) && !StartsB("O") && !StartsI("O") && !StartsI("B-" + kind)
  {
    assert StartsI(tag) ==> tag == "I-" + tag[2..];
    assert ("I-" + kind)[..2] == "I-" && ("B-" + kind)[..2] == "B-";
    assert "I-"[0] != "B-"[0];
  }

  /** The tag at a position of a block. */
  lemma TagInBlock(tags: seq<string>, bs: seq<seq<string>>, i: nat, k: nat)
    requires |tags| == |bs| && Solid(bs) && i < |bs| && Offset(bs, i) <= k < Offset(bs, i + 1)
    ensures k < |Spread(tags, bs)|
    ensures Spread(tags, bs)[k] ==
            if |bs[i]| == 1 then tags[i]
            else if StartsB(tags[i]) then (if k == Offset(bs, i) then "B-" + tags[i][2..] else "I-" + tags[i][2..])
            else if StartsI(tags[i]) then "I-" + tags[i][2..]
            else "O"
  {
    SpreadBlock(tags, bs, i);
    ExpandedTagAt(tags[i], |bs[i]|);
    var lo, hi := Offset(bs, i), Offset(bs, i + 1);
    assert Spread(tags, bs)[lo..hi][k - lo] == Spread(tags, bs)[k];
  }

  lemma {:induction false} RunOver(tags: seq<string>, j: nat, end: nat, kind: string)
    requires j <= end <= |tags| && forall k :: j <= k < end ==> tags[k] == "I-" + kind
    ensures RunEnd(tags, j, kind) == RunEnd(tags, end, kind)
    decreases |tags| - j
  {
    if j < end { RunOver(tags, j + 1, end, kind); }
  }

  /** A run that reaches a block whose tag continues it, or is past the block's `B-`, crosses it. */
  lemma RunOverBlock(tags: seq<string>, bs: seq<seq<string>>, i: nat, k: nat, kind: string)
    requires |tags| == |bs| && Solid(bs) && i < |bs| && Offset(bs, i) <= k <= Offset(bs, i + 1)
    requires tags[i] == "I-" + kind || (k > Offset(bs, i) && StartsB(tags[i]) && tags[i][2..] == kind)
    ensures k <= |Spread(tags, bs)| && Offset(bs, i + 1) <= |Spread(tags, bs)|
    ensures RunEnd(Spread(tags, bs), k, kind) == RunEnd(Spread(tags, bs), Offset(bs, i + 1), kind)
  {
    SpreadBlock(tags, bs, i);
    var out, end := Spread(tags, bs), Offset(bs, i + 1);
    forall j | k <= j < end ensures out[j] == "I-" + kind { InsideTag(tags, bs, i, j, kind); }
    RunOver(out, k, end, kind);
  }

  lemma InsideTag(tags: seq<string>, bs: seq<seq<string>>, i: nat, k: nat, kind: string)
    requires |tags| == |bs| && Solid(bs) && i < |bs| && Offset(bs, i) <= k < Offset(bs, i + 1)
    requires tags[i] == "I-" + kind || (k > Offset(bs, i) && StartsB(tags[i]) && tags[i][2..] == kind)
    ensures k < |Spread(tags, bs)| && Spread(tags, bs)[k] == "I-" + kind
  {
    TagInBlock(tags, bs, i, k);
    Marked(tags[i], kind);
  }

  lemma {:induction false} RunMoves(tags: seq<string>, bs: seq<seq<string>>, j: nat, kind: string)
    requires |tags| == |bs| && Solid(bs) && j <= |bs|
    ensures Offset(bs, j) <= |Spread(tags, bs)|
    ensures RunEnd(Spread(tags, bs), Offset(bs, j), kind) == Offset(bs, RunEnd(tags, j, kind))
    decreases |bs| - j
  {
    SpreadLength(tags, bs);
    SpreadSuffix(tags, bs, j);
    if j < |bs| {
      SpreadBlock(tags, bs, j);
      if tags[j] == "I-" + kind {
        RunOverBlock(tags, bs, j, Offset(bs, j), kind);
        RunMoves(tags, bs, j + 1, kind);
      } else {
        TagInBlock(tags, bs, j, Offset(bs, j));
        Marked(tags[j], kind);
        MarkedApart(tags[j], kind);
      }
    }
  }

  lemma MarkedApart(tag: string, kind: string)
    requires tag != "I-" + kind
    ensures StartsB(tag) ==> "B-" + tag[2..] != "I-" + kind
    ensures StartsI(tag) ==> "I-" + tag[2..] != "I-" + kind
    ensures "O" != "I-" + kind
  {
    assert ("I-" + kind)[0] == 'I';
    assert StartsB(tag) ==> ("B-" + tag[2..])[0] == 'B';
    assert StartsI(tag) ==> tag == "I-" + tag[2..];
  }

  lemma {:induction false} SkipOver(tags: seq<string>, j: nat, end: nat)
    requires j <= end <= |tags| && forall k :: j <= k < end ==> !StartsB(tags[k])
    ensures Decode(tags, j) == Decode(tags, end)
    decreases |tags| - j
  {
    if j < end { SkipOver(tags, j + 1, end); }
  }

  lemma SkipBlock(tags: seq<string>, bs: seq<seq<string>>, i: nat, k: nat)
    requires |tags| == |bs| && Solid(bs) && i < |bs| && Offset(bs, i) <= k <= Offset(bs, i + 1)
    requires !StartsB(tags[i])
    ensures k <= |Spread(tags, bs)| && Offset(bs, i + 1) <= |Spread(tags, bs)|
    ensures Decode(Spread(tags, bs), k) == Decode(Spread(tags, bs), Offset(bs, i + 1))
  {
    SpreadBlock(tags, bs, i);
    var out, end := Spread(tags, bs), Offset(bs, i + 1);
    forall j | k <= j < end ensures !StartsB(out[j]) { NoBegin(tags, bs, i, j); }
    SkipOver(out, k, end);
  }

  lemma NoBegin(tags: seq<string>, bs: seq<seq<string>>, i: nat, k: nat)
    requires |tags| == |bs| && Solid(bs) && i < |bs| && Offset(bs, i) <= k < Offset(bs, i + 1)
    requires !StartsB(tags[i])
    ensures k < |Spread(tags, bs)| && !StartsB(Spread(tags, bs)[k])
  {
    TagInBlock(tags, bs, i, k);
    Marked(tags[i], if StartsI(tags[i]) then tags[i][2..] else "");
  }

  lemma {:induction false} DecodeWithin(tags: seq<string>, i: nat)
    requires i <= |tags|
    ensures forall e :: e in Decode(tags, i) ==> i <= e.start < e.end <= |tags|
    decreases |tags| - i
  {
    if i < |tags| {
      if StartsB(tags[i]) { DecodeWithin(tags, RunEnd(tags, i + 1, tags[i][2..])); } else { DecodeWithin(tags, i + 1); }
    }
  }

  lemma BeginMoves(tags: seq<string>, bs: seq<seq<string>>, i: nat)
    requires |tags| == |bs| && Solid(bs) && i < |bs| && StartsB(tags[i])
    ensures var out, k := Spread(tags, bs), Offset(bs, i);
            && k < |out| && StartsB(out[k]) && out[k][2..] == tags[i][2..]
            && RunEnd(out, k + 1, tags[i][2..]) == Offset(bs, RunEnd(tags, i + 1, tags[i][2..]))
  {
    var kind := tags[i][2..];
    SpreadBlock(tags, bs, i);
    TagInBlock(tags, bs, i, Offset(bs, i));
    Marked(tags[i], kind);
    RunOverBlock(tags, bs, i, Offset(bs, i) + 1, kind);
    RunMoves(tags, bs, i + 1, kind);
  }

  lemma DecodeBegins(tags: seq<string>, bs: seq<seq<string>>, i: nat, out: seq<string>, k: nat, e: nat)
    requires |tags| == |bs| && Solid(bs) && i < |bs| && StartsB(tags[i])
    requires out == Spread(tags, bs) && k == Offset(bs, i) && e == RunEnd(tags, i + 1, tags[i][2..])
    ensures k <= |out| && Offset(bs, e) <= |out|
    ensures Decode(out, k) == [Entity(tags[i][2..], k, Offset(bs, e))] + Decode(out, Offset(bs, e))
  {
    BeginMoves(tags, bs, i);
    DecodeAtB(out, k);
  }

  lemma DecodeAtB(tags: seq<string>, i: nat)
    requires i < |tags| && StartsB(tags[i])
    ensures var e := RunEnd(tags, i + 1, tags[i][2..]);
            Decode(tags, i) == [Entity(tags[i][2..], i, e)] + Decode(tags, e)
  {
  }

  /** Spreading tags over blocks moves each decoded entity to its blocks, whatever the tags are. */
  lemma {:induction false} DecodeMoves(tags: seq<string>, bs: seq<seq<string>>, i: nat)
    requires |tags| == |bs| && Solid(bs) && i <= |bs|
    ensures forall e :: e in Decode(tags, i) ==> e.start <= |bs| && e.end <= |bs|
    ensures Offset(bs, i) <= |Spread(tags, bs)|
    ensures Decode(Spread(tags, bs), Offset(bs, i)) == Moved(bs, Decode(tags, i))
    decreases |bs| - i
  {
    DecodeWithin(tags, i);
    SpreadSuffix(tags, bs, i);
    SpreadLength(tags, bs);
    if i < |bs| {
      if StartsB(tags[i]) {
        var e := RunEnd(tags, i + 1, tags[i][2..]);
        var rest := Decode(tags, e);
        DecodeMoves(tags, bs, e);
        DecodeBegins(tags, bs, i, Spread(tags, bs), Offset(bs, i), e);
        assert Decode(tags, i) == [Entity(tags[i][2..], i, e)] + rest;
        assert Decode(tags, i)[1..] == rest;
      } else {
        SpreadBlock(tags, bs, i);
        SkipBlock(tags, bs, i, Offset(bs, i));
        DecodeMoves(tags, bs, i + 1);
      }
    }
  }

  /** For every record of equal lengths, well formed or not: the repaired record has as many tags as
      tokens and decodes to the same entities, of the same types in the same order, each covering
      exactly the pieces of its own tokens. */
  lemma RepairKeepsEntities(c: Classes, tokens: seq<string>, tags: seq<string>)
    requires |tokens| == |tags|
    ensures |RepairedTags(c, tokens, tags)| == |RepairedTokens(c, tokens)|
    ensures forall e :: e in Decode(tags, 0) ==> e.start < e.end <= |tokens|
    ensures Decode(RepairedTags(c, tokens, tags), 0) == Moved(Blocks(c, tokens), Decode(tags, 0))
    ensures forall e :: e in Decode(tags, 0) ==>
              Covers(c, tokens, e.start, e.end)
  {
    var bs := Blocks(c, tokens);
    SpreadLength(tags, bs);
    DecodeMoves(tags, bs, 0);
    DecodeWithin(tags, 0);
    forall e | e in Decode(tags, 0) ensures Covers(c, tokens, e.start, e.end) {
      FlattenRange(bs, e.start, e.end);
    }
  }

  /** The moved entity covers the pieces of tokens `i` to `j`, and nothing else. */
  predicate Covers(c: Classes, tokens: seq<string>, i: nat, j: nat) {
    var bs := Blocks(c, tokens);
    i <= j <= |tokens|
    && Offset(bs, i) <= Offset(bs, j) <= |RepairedTokens(c, tokens)|
    && RepairedTokens(c, tokens)[Offset(bs, i)..Offset(bs, j)] == Flatten(bs[i..j])
  }

  // ----- well-formedness -----

  /** A position of the spread tags and the block it lies in. */
  lemma {:induction false} BlockOf(bs: seq<seq<string>>, k: nat, n: nat) returns (i: nat)
    requires n <= |bs| && k < Offset(bs, n)
    ensures i < n && Offset(bs, i) <= k < Offset(bs, i + 1)
  {
    if Offset(bs, n - 1) <= k { i := n - 1; } else { i := BlockOf(bs, k, n - 1); }
  }

  lemma SpreadTagKind(tags: seq<string>, bs: seq<seq<string>>, i: nat, k: nat)
    requires |tags| == |bs| && Solid(bs) && i < |bs| && Offset(bs, i) <= k < Offset(bs, i + 1)
    requires tags[i] == "O" || StartsB(tags[i]) || StartsI(tags[i])
    ensures k < |Spread(tags, bs)|
    ensures var tag := Spread(tags, bs)[k];
            && (tag == "O" || StartsB(tag) || StartsI(tag))
            && (StartsI(tag) ==> (StartsB(tags[i]) || StartsI(tags[i])) && tag[2..] == tags[i][2..])
            && (k == Offset(bs, i) && StartsI(tag) ==> StartsI(tags[i]))
            && (StartsB(tags[i]) || StartsI(tags[i]) ==> (StartsB(tag) || StartsI(tag)) && tag[2..] == tags[i][2..])
  {
    SpreadBlock(tags, bs, i);
    TagInBlock(tags, bs, i, k);
    Marked(tags[i], if StartsB(tags[i]) || StartsI(tags[i]) then tags[i][2..] else "");
  }

  lemma SpreadTagContinues(tags: seq<string>, bs: seq<seq<string>>, i: nat, k: nat)
    requires |tags| == |bs| && Solid(bs) && i < |bs| && Offset(bs, i) <= k < Offset(bs, i + 1)
    requires WellFormed(tags) && k < |Spread(tags, bs)| && StartsI(Spread(tags, bs)[k])
    ensures k > 0 && Continues(Spread(tags, bs)[k - 1], Spread(tags, bs)[k])
  {
    assert WellFormedAt(tags, i);
    SpreadTagKind(tags, bs, i, k);
    if k > Offset(bs, i) {
      SpreadTagKind(tags, bs, i, k - 1);
    } else {
      AcrossBlocks(tags, bs, i);
    }
  }

  /** Where one block meets the next. */
  lemma AcrossBlocks(tags: seq<string>, bs: seq<seq<string>>, i: nat)
    requires |tags| == |bs| && Solid(bs) && 0 < i < |bs| && WellFormed(tags) && StartsI(tags[i])
    ensures var k := Offset(bs, i);
            && 0 < k < |Spread(tags, bs)|
            && (StartsI(Spread(tags, bs)[k]) ==> Continues(Spread(tags, bs)[k - 1], Spread(tags, bs)[k]))
  {
    var k := Offset(bs, i);
    assert WellFormedAt(tags, i) && WellFormedAt(tags, i - 1);
    assert Offset(bs, i) == Offset(bs, i - 1) + |bs[i - 1]| && Offset(bs, i + 1) == Offset(bs, i) + |bs[i]|;
    SpreadTagKind(tags, bs, i, k);
    SpreadTagKind(tags, bs, i - 1, k - 1);
  }

  /** A well-formed record stays well formed. */
  lemma RepairKeepsWellFormed(c: Classes, tokens: seq<string>, tags: seq<string>)
    requires |tokens| == |tags| && WellFormed(tags)
    ensures WellFormed(RepairedTags(c, tokens, tags))
  {
    var bs := Blocks(c, tokens);
    SpreadLength(tags, bs);
    forall k | 0 <= k < |Spread(tags, bs)| ensures WellFormedAt(Spread(tags, bs), k) {
      var i := BlockOf(bs, k, |bs|);
      assert WellFormedAt(tags, i);
      SpreadTagKind(tags, bs, i, k);
      if StartsI(Spread(tags, bs)[k]) { SpreadTagContinues(tags, bs, i, k); }
    }
  }
}
