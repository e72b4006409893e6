/** Bounded, collision-free SQL identifiers derived from free tenant text. */
module Identifiers {

  const MAX_IDENTIFIER_LENGTH := 63
  const IDENTIFIER_PREFIX := "e_"
  const FALLBACK_SLUG := "unnamed"

  // ----- characters -----

  predicate IsSlugChar(c: char) {
    'a' <= c <= 'z' || '0' <= c <= '9'
  }

  /** The grammar `[a-z0-9][a-z0-9_]*` of a stripped identifier. */
  predicate IsBody(s: string) {
    && s != ""
    && IsSlugChar(s[0])
    && forall i :: 0 <= i < |s| ==> IsSlugChar(s[i]) || s[i] == '_'
  }

  /** `GENERATED_IDENTIFIER_RE`: `^e_[a-z0-9][a-z0-9_]*$`. */
  predicate IsGenerated(s: string) {
    IDENTIFIER_PREFIX <= s && IsBody(s[2..])
  }

  // ----- slugging -----

  function LowerChar(c: char): char {
    if 'A' <= c <= 'Z' then c - 'A' + 'a' else c
  }

  function Lower(s: string): (r: string)
    ensures |r| == |s|
  {
    if s == "" then "" else [LowerChar(s[0])] + Lower(s[1..])
  }

  /** Drops the maximal run of non-slug characters at the front. */
  function SkipSeparators(s: string): (r: string)
    ensures |r| <= |s|
    ensures r != "" ==> IsSlugChar(r[0])
    ensures s != "" && !IsSlugChar(s[0]) ==> |r| < |s|
  {
    if s == "" || IsSlugChar(s[0]) then s else SkipSeparators(s[1..])
  }

  /** `re.sub("[^a-z0-9]+", "_", s)`: each maximal run of other characters becomes one `_`. */
  function Collapse(s: string): string
    decreases |s|
  {
    if s == "" then ""
    else if IsSlugChar(s[0]) then [s[0]] + Collapse(s[1..])
    else "_" + Collapse(SkipSeparators(s))
  }

  function StripLeft(s: string): string {
    if s != "" && s[0] == '_' then StripLeft(s[1..]) else s
  }

  function StripRight(s: string): string {
    if s != "" && s[|s| - 1] == '_' then StripRight(s[..|s| - 1]) else s
  }

  /** The identifier body for a name already folded to ASCII. */
  function SlugBase(ascii: string): string {
    var collapsed := StripRight(StripLeft(Collapse(Lower(ascii))));
    if collapsed == "" then FALLBACK_SLUG else collapsed
  }

  // The reference reading of a slug: the words of the text, joined by single underscores.

  function FirstWord(s: string): (r: string)
    ensures |r| <= |s|
    ensures s != "" && IsSlugChar(s[0]) ==> r != ""
  {
    if s == "" || !IsSlugChar(s[0]) then "" else [s[0]] + FirstWord(s[1..])
  }

  predicate IsWord(s: string) {
    s != "" && forall i :: 0 <= i < |s| ==> IsSlugChar(s[i])
  }

  lemma {:induction false} FirstWordIsMaximal(s: string)
    ensures forall i :: 0 <= i < |FirstWord(s)| ==> IsSlugChar(FirstWord(s)[i])
    ensures |FirstWord(s)| < |s| ==> !IsSlugChar(s[|FirstWord(s)|])
  {
    if s != "" && IsSlugChar(s[0]) { FirstWordIsMaximal(s[1..]); }
  }

  /** The maximal runs of slug characters, in order. */
  function Words(s: string): (ws: seq<string>)
    ensures forall w :: w in ws ==> IsWord(w)
    decreases |s|
  {
    var t := SkipSeparators(s);
    FirstWordIsMaximal(t);
    if t == "" then [] else [FirstWord(t)] + Words(t[|FirstWord(t)|..])
  }

  function JoinWords(ws: seq<string>): string {
    if |ws| == 0 then "" else if |ws| == 1 then ws[0] else ws[0] + "_" + JoinWords(ws[1..])
  }

  lemma {:induction false} StripRightConcat(s: string, t: string)
    ensures StripRight(s + t) == if StripRight(t) == "" then StripRight(s) else s + StripRight(t)
    decreases |t|
  {
    if t == "" {
      assert s + t == s;
    } else if t[|t| - 1] == '_' {
      assert (s + t)[..|s + t| - 1] == s + t[..|t| - 1];
      StripRightConcat(s, t[..|t| - 1]);
    }
  }

  lemma {:induction false} CollapseFirstWord(s: string)
    ensures Collapse(s) == FirstWord(s) + Collapse(s[|FirstWord(s)|..])
    decreases |s|
  {
    if s != "" && IsSlugChar(s[0]) {
      CollapseFirstWord(s[1..]);
      assert s[1..][|FirstWord(s[1..])|..] == s[|FirstWord(s)|..];
    } else {
      assert s[0..] == s;
    }
  }

  lemma CollapseSeparated(w: string, tail: string)
    requires w != "" && w[|w| - 1] != '_'
    ensures StripRight((w + "_") + tail) == if StripRight(tail) == "" then w else w + "_" + StripRight(tail)
  {
    StripRightConcat(w + "_", tail);
    assert (w + "_")[..|w|] == w;
  }

  lemma {:induction false} CollapseIsJoinedWords(t: string)
    requires t != "" ==> IsSlugChar(t[0])
    ensures StripRight(Collapse(t)) == JoinWords(Words(t))
    decreases |t|
  {
    if t != "" {
      var w := FirstWord(t);
      var rest := t[|w|..];
      var next := SkipSeparators(rest);
      CollapseFirstWord(t);
      FirstWordIsMaximal(t);
      assert Words(SkipSeparators(rest)) == Words(rest);
      assert Words(t) == [w] + Words(next);
      if rest != "" {
        CollapseIsJoinedWords(next);
        CollapseSeparated(w, Collapse(next));
        assert Collapse(t) == (w + "_") + Collapse(next);
        assert Words(t)[1..] == Words(next);
        if Words(next) != [] { JoinWordsBody(Words(next)); }
      }
    }
  }

  /** Slugging keeps exactly the words of the folded, lower-cased name: two names get the same
      base iff they have the same words, or neither has any and the fallback stands in. */
  lemma {:induction false} SlugBaseIsJoinedWords(ascii: string)
    ensures SlugBase(ascii) ==
            if Words(Lower(ascii)) == [] then FALLBACK_SLUG else JoinWords(Words(Lower(ascii)))
  {
    var s := Lower(ascii);
    var t := SkipSeparators(s);
    CollapseIsJoinedWords(t);
    assert Words(SkipSeparators(s)) == Words(s);
    assert StripLeft(Collapse(s)) == Collapse(t) by {
      if s != "" && !IsSlugChar(s[0]) { assert ("_" + Collapse(t))[1..] == Collapse(t); }
    }
    if Words(t) != [] { JoinWordsBody(Words(t)); }
  }

  lemma {:induction false} JoinWordsBody(ws: seq<string>)
    requires ws != []
    requires forall w :: w in ws ==> IsWord(w)
    ensures IsBody(JoinWords(ws))
  {
    if |ws| > 1 {
      JoinWordsBody(ws[1..]);
    }
    assert ws[0] in ws;
  }

  lemma SlugBaseIsBody(ascii: string)
    ensures IsBody(SlugBase(ascii))
  {
    SlugBaseIsJoinedWords(ascii);
    if Words(Lower(ascii)) != [] {
      JoinWordsBody(Words(Lower(ascii)));
    }
  }

  // ----- numeric suffixes -----

  function Digits(n: nat): (r: string)
    ensures r != ""
    ensures forall i :: 0 <= i < |r| ==> '0' <= r[i] <= '9'
  {
    if n < 10 then ['0' + n as char] else Digits(n / 10) + ['0' + (n % 10) as char]
  }

  function Suffix(n: nat): string {
    "_" + Digits(n)
  }

  function Pow10(k: nat): nat {
    if k == 0 then 1 else 10 * Pow10(k - 1)
  }

  lemma {:induction false} DigitsInjective(m: nat, n: nat)
    requires Digits(m) == Digits(n)
    ensures m == n
  {
    if m >= 10 && n >= 10 {
      assert Digits(m)[..|Digits(m)| - 1] == Digits(m / 10);
      assert Digits(n)[..|Digits(n)| - 1] == Digits(n / 10);
      DigitsInjective(m / 10, n / 10);
      assert Digits(m)[|Digits(m)| - 1] == Digits(n)[|Digits(n)| - 1];
    } else {
      assert Digits(m)[|Digits(m)| - 1] == Digits(n)[|Digits(n)| - 1];
    }
  }

  lemma {:induction false} DigitsLength(n: nat, k: nat)
    requires k >= 1
    ensures |Digits(n)| <= k <==> n < Pow10(k)
  {
    if n >= 10 {
      if k == 1 {
        assert Pow10(1) == 10 * Pow10(0) == 10;
      } else {
        DigitsLength(n / 10, k - 1);
      }
    } else {
      Pow10AtLeast(k);
    }
  }

  lemma {:induction false} Pow10AtLeast(k: nat)
    requires k >= 1
    ensures Pow10(k) >= 10
  {
    if k > 1 { Pow10AtLeast(k - 1); } else { assert Pow10(1) == 10 * Pow10(0); }
  }

  /** The number a run of decimal digits stands for. */
  function NumberOf(s: string): nat {
    if s == "" then 0
    else 10 * NumberOf(s[..|s| - 1]) + if '0' <= s[|s| - 1] <= '9' then s[|s| - 1] as nat - '0' as nat else 0
  }

  /** The digits of a number stand for it, and begin with `0` only for 0. */
  lemma {:induction false} DigitsRead(n: nat)
    ensures NumberOf(Digits(n)) == n
    ensures Digits(n)[0] == '0' <==> n == 0
    ensures n == 0 ==> Digits(n) == "0"
  {
    if n >= 10 {
      DigitsRead(n / 10);
      assert Digits(n)[..|Digits(n)| - 1] == Digits(n / 10);
    } else {
      assert Digits(n)[..0] == "";
    }
  }

  /** Python's `s[:k]`, negative bounds included. */
  function SliceTo(s: string, k: int): (r: string)
    ensures r <= s
    ensures |r| <= |s|
    ensures 0 <= k ==> |r| == if k < |s| then k else |s|
  {
    if k >= |s| then s
    else if k >= 0 then s[..k]
    else if |s| + k > 0 then s[..|s| + k]
    else ""
  }

  /** The stem cut to leave room for the suffix, then the suffix. */
  function Suffixed(stem: string, n: nat): string {
    SliceTo(stem, MAX_IDENTIFIER_LENGTH - |Suffix(n)|) + Suffix(n)
  }

  /** What follows the last underscore is determined by the whole. */
  lemma LastUnderscore(p: string, d: string, q: string, e: string)
    requires '_' !in d && '_' !in e
    requires p + "_" + d == q + "_" + e
    ensures d == e
  {
    var s := p + "_" + d;
    assert s[|p|] == '_' && s[|q|] == '_';
    assert forall i :: |p| < i < |s| ==> s[i] == d[i - |p| - 1];
    assert forall i :: |q| < i < |s| ==> s[i] == e[i - |q| - 1];
    assert s[|p| + 1..] == d && s[|q| + 1..] == e;
  }

  /** Distinct suffix numbers give distinct candidates: the text after the last `_` is the number. */
  lemma SuffixedInjective(stem: string, m: nat, n: nat)
    requires Suffixed(stem, m) == Suffixed(stem, n)
    ensures m == n
  {
    var p, q := SliceTo(stem, MAX_IDENTIFIER_LENGTH - |Suffix(m)|), SliceTo(stem, MAX_IDENTIFIER_LENGTH - |Suffix(n)|);
    assert p + "_" + Digits(m) == p + Suffix(m);
    assert q + "_" + Digits(n) == q + Suffix(n);
    LastUnderscore(p, Digits(m), q, Digits(n));
    DigitsInjective(m, n);
  }

  /** The first suffix number from `n` on whose candidate is free. Each miss uses up one taken
      name, because later candidates all differ from it. */
  function FirstFree(stem: string, n: nat, taken: set<string>): nat
    decreases |taken|
  {
    if Suffixed(stem, n) !in taken then n
    else FirstFree(stem, n + 1, taken - {Suffixed(stem, n)})
  }

  lemma {:induction false} FirstFreeIsLeast(stem: string, n: nat, taken: set<string>)
    ensures n <= FirstFree(stem, n, taken) <= n + |taken|
    ensures Suffixed(stem, FirstFree(stem, n, taken)) !in taken
    ensures forall m :: n <= m < FirstFree(stem, n, taken) ==> Suffixed(stem, m) in taken
    decreases |taken|
  {
    var c := Suffixed(stem, n);
    if c in taken {
      FirstFreeIsLeast(stem, n + 1, taken - {c});
      var f := FirstFree(stem, n, taken);
      if Suffixed(stem, f) == c { SuffixedInjective(stem, f, n); }
    }
  }

  /** Removing a candidate that has been tried does not change which number comes out. */
  lemma {:induction false} FirstFreeSkips(stem: string, n: nat, taken: set<string>, tried: set<string>)
    requires forall m :: n <= m ==> Suffixed(stem, m) !in tried
    ensures FirstFree(stem, n, taken - tried) == FirstFree(stem, n, taken)
    decreases |taken|
  {
    var c := Suffixed(stem, n);
    if c in taken {
      assert (taken - tried) - {c} == (taken - {c}) - tried;
      FirstFreeSkips(stem, n + 1, taken - {c}, tried);
    }
  }

  // ----- to_sql_identifier -----

  function Stem(name: string): string {
    IDENTIFIER_PREFIX + SlugBase(name)
  }

  /** What `to_sql_identifier` computes. */
  function SqlIdentifier(name: string, taken: set<string>): string {
    var plain := SliceTo(Stem(name), MAX_IDENTIFIER_LENGTH);
    if plain !in taken then plain else Suffixed(Stem(name), FirstFree(Stem(name), 2, taken))
  }

  /** `to_sql_identifier`: try the plain identifier, then suffixes from `_2` up. */
  method ToSqlIdentifier(name: string, taken: set<string>) returns (identifier: string)
    ensures identifier == SqlIdentifier(name, taken)
    ensures identifier !in taken
  {
    FirstFreeIsLeast(Stem(name), 2, taken);
    var base := SlugBase(name);
    var candidate := SliceTo(IDENTIFIER_PREFIX + base, MAX_IDENTIFIER_LENGTH);
    if candidate !in taken {
      return candidate;
    }
    identifier := NextFree(IDENTIFIER_PREFIX + base, taken);
  }

  /** The suffix loop shared by identifiers and projected columns. */
  method NextFree(stem: string, taken: set<string>) returns (candidate: string)
    ensures candidate == Suffixed(stem, FirstFree(stem, 2, taken))
  {
    FirstFreeIsLeast(stem, 2, taken);
    var suffixNumber: nat := 2;
    while true
      invariant 2 <= suffixNumber <= FirstFree(stem, 2, taken)
      decreases FirstFree(stem, 2, taken) - suffixNumber
    {
      var suffix := "_" + Digits(suffixNumber);
      candidate := SliceTo(stem, MAX_IDENTIFIER_LENGTH - |suffix|) + suffix;
      assert candidate == Suffixed(stem, suffixNumber);
      if candidate !in taken {
        return candidate;
      }
      suffixNumber := suffixNumber + 1;
    }
  }

  /** The prefix and the slug, cut to 63 characters, is what a name gets unless it is taken. Then it gets the
      least free suffix from 2 up, whose number is at most `|taken| + 2`. The result is free in any case. No
      assumption on the name or on `taken`. */
  lemma SqlIdentifierLeastFree(name: string, taken: set<string>)
    ensures SqlIdentifier(name, taken) !in taken
    ensures var full := "e_" + SlugBase(name); var plain := if |full| <= 63 then full else full[..63];
            && (SqlIdentifier(name, taken) == plain <==> plain !in taken)
            && (plain in taken ==>
                  exists n :: 2 <= n <= |taken| + 2
                    && SqlIdentifier(name, taken) == Suffixed(full, n)
                    && forall m :: 2 <= m < n ==> Suffixed(full, m) in taken)
  {
    FirstFreeIsLeast(Stem(name), 2, taken);
  }

  /** A suffixed candidate keeps as much of the stem as fits into 63 characters with its number. */
  lemma SuffixedIs(stem: string, n: nat)
    requires |Digits(n)| <= 62
    ensures var room := 62 - |Digits(n)|;
            Suffixed(stem, n) == (if |stem| <= room then stem else stem[..room]) + "_" + Digits(n)
  {
    var room := 62 - |Digits(n)|;
    var head := if |stem| <= room then stem else stem[..room];
    assert |Suffix(n)| == 1 + |Digits(n)|;
    assert SliceTo(stem, MAX_IDENTIFIER_LENGTH - |Suffix(n)|) == head;
    assert head + "_" + Digits(n) == head + Suffix(n);
  }

  predicate IsIdentifier(s: string) {
    |s| <= MAX_IDENTIFIER_LENGTH && IsGenerated(s)
  }

  /** Exactly when a suffixed candidate is a legal identifier. One digit count past the obvious
      bound still works: with 61 digits the stem is cut down to a bare `e`. */
  lemma SuffixedLegal(stem: string, n: nat)
    requires IsGenerated(stem)
    ensures IsIdentifier(Suffixed(stem, n)) <==> |Digits(n)| <= 59 || |Digits(n)| == 61
  {
    var k := |Suffix(n)|;
    var head := SliceTo(stem, MAX_IDENTIFIER_LENGTH - k);
    var r := Suffixed(stem, n);
    assert r == head + Suffix(n);
    assert stem[0] == 'e' && stem[1] == '_' && stem[2] == stem[2..][0];
    if |Digits(n)| <= 59 {
      assert head[2] == stem[2];
      assert r[..2] == "e_";
      forall i | 0 <= i < |r[2..]| ensures IsSlugChar(r[2..][i]) || r[2..][i] == '_' {
        if i + 2 < |head| { assert r[2..][i] == stem[2..][i]; }
        else { assert r[2..][i] == Suffix(n)[i + 2 - |head|]; }
      }
    } else if k == 61 {
      assert r[2] == '_';
    } else if k == 62 {
      assert r[0] == 'e' && r[1] == '_';
      assert r[2..] == Digits(n);
    } else if k == 63 {
      assert r[0] == '_';
    }
  }

  /** With fewer than `10^59 - 2` names taken, every name gets a legal identifier. */
  lemma SqlIdentifierLegal(name: string, taken: set<string>)
    requires |taken| + 2 < Pow10(59)
    ensures IsIdentifier(SqlIdentifier(name, taken))
  {
    SlugBaseIsBody(name);
    var stem := Stem(name);
    assert stem[2..] == SlugBase(name);
    var plain := SliceTo(stem, MAX_IDENTIFIER_LENGTH);
    if plain !in taken {
      assert plain[2..] <= stem[2..];
    } else {
      FirstFreeIsLeast(stem, 2, taken);
      var n := FirstFree(stem, 2, taken);
      DigitsLength(n, 59);
      SuffixedLegal(stem, n);
    }
  }

  lemma {:induction false} LowerFirst(s: string)
    requires s != ""
    ensures Lower(s) != "" && Lower(s)[0] == LowerChar(s[0])
  {
  }

  /** A name that begins with a digit has a slug that begins with it. */
  lemma SlugKeepsDigit(name: string)
    requires name != "" && '0' <= name[0] <= '9'
    ensures SlugBase(name)[0] == name[0]
  {
    var s := Lower(name);
    LowerFirst(name);
    SlugBaseIsJoinedWords(name);
    assert s[0] == name[0] && SkipSeparators(s) == s;
    assert Words(s)[0] == FirstWord(s) && FirstWord(s)[0] == s[0];
  }

  /** So has its identifier, behind the prefix. */
  lemma IdentifierKeepsDigit(name: string, taken: set<string>)
    requires name != "" && '0' <= name[0] <= '9' && |taken| + 2 < Pow10(59)
    ensures |SqlIdentifier(name, taken)| > 2 && SqlIdentifier(name, taken)[2] == name[0]
  {
    SlugBaseIsBody(name);
    SlugKeepsDigit(name);
    var stem := Stem(name);
    assert |stem| > 2 && stem[2] == name[0];
    if SliceTo(stem, MAX_IDENTIFIER_LENGTH) in taken {
      FirstFreeIsLeast(stem, 2, taken);
      var n := FirstFree(stem, 2, taken);
      DigitsLength(n, 59);
      assert |SliceTo(stem, MAX_IDENTIFIER_LENGTH - |Suffix(n)|)| > 2;
    }
  }

  // ----- what a slug keeps of its text -----

  /** The letters and digits of a text, lower-cased and in order. */
  function Kept(s: string): string {
    if s == "" then ""
    else
      (if 'a' <= s[0] <= 'z' || '0' <= s[0] <= '9' then [s[0]]
       else if 'A' <= s[0] <= 'Z' then [s[0] - 'A' + 'a']
       else "") + Kept(s[1..])
  }

  function WithoutUnderscores(s: string): string {
    if s == "" then "" else (if s[0] == '_' then "" else [s[0]]) + WithoutUnderscores(s[1..])
  }

  lemma {:induction false} WithoutUnderscoresConcat(s: string, t: string)
    ensures WithoutUnderscores(s + t) == WithoutUnderscores(s) + WithoutUnderscores(t)
  {
    if s == "" {
      assert s + t == t;
    } else {
      assert (s + t)[0] == s[0] && (s + t)[1..] == s[1..] + t;
      WithoutUnderscoresConcat(s[1..], t);
    }
  }

  lemma {:induction false} StripLeftKeeps(s: string)
    ensures WithoutUnderscores(StripLeft(s)) == WithoutUnderscores(s)
  {
    if s != "" && s[0] == '_' { StripLeftKeeps(s[1..]); }
  }

  lemma {:induction false} StripRightKeeps(s: string)
    ensures WithoutUnderscores(StripRight(s)) == WithoutUnderscores(s)
  {
    if s != "" && s[|s| - 1] == '_' {
      var front := s[..|s| - 1];
      assert s == front + "_";
      assert WithoutUnderscores("_") == "" by { assert "_"[1..] == ""; }
      WithoutUnderscoresConcat(front, "_");
      StripRightKeeps(front);
    }
  }

  lemma {:induction false} SkipKeeps(s: string)
    requires forall i :: 0 <= i < |s| ==> !('A' <= s[i] <= 'Z')
    ensures Kept(SkipSeparators(s)) == Kept(s)
    ensures forall i :: 0 <= i < |SkipSeparators(s)| ==> !('A' <= SkipSeparators(s)[i] <= 'Z')
  {
    if s != "" && !IsSlugChar(s[0]) { SkipKeeps(s[1..]); }
  }

  lemma {:induction false} CollapseKeeps(s: string)
    requires forall i :: 0 <= i < |s| ==> !('A' <= s[i] <= 'Z')
    ensures WithoutUnderscores(Collapse(s)) == Kept(s)
    decreases |s|
  {
    if s != "" {
      if IsSlugChar(s[0]) {
        CollapseKeeps(s[1..]);
        assert Collapse(s)[1..] == Collapse(s[1..]);
      } else {
        SkipKeeps(s);
        CollapseKeeps(SkipSeparators(s));
        assert Collapse(s)[1..] == Collapse(SkipSeparators(s));
      }
    }
  }

  lemma {:induction false} LowerKept(s: string)
    ensures Kept(Lower(s)) == Kept(s)
    ensures forall i :: 0 <= i < |s| ==> !('A' <= Lower(s)[i] <= 'Z')
  {
    if s != "" {
      LowerKept(s[1..]);
      assert Lower(s)[1..] == Lower(s[1..]);
    }
  }

  lemma BodyKeepsSomething(s: string)
    requires IsBody(s)
    ensures WithoutUnderscores(s) != ""
  {
  }

  /** A slug, its underscores dropped, is the text's letters and digits, lower-cased and in order; a text
      that has none gets the fallback. */
  lemma SlugKeepsText(ascii: string)
    ensures Kept(ascii) == "" ==> SlugBase(ascii) == "unnamed"
    ensures Kept(ascii) != "" ==> WithoutUnderscores(SlugBase(ascii)) == Kept(ascii)
  {
    var s := Lower(ascii);
    LowerKept(ascii);
    CollapseKeeps(s);
    StripLeftKeeps(Collapse(s));
    StripRightKeeps(StripLeft(Collapse(s)));
    SlugBaseIsJoinedWords(ascii);
    if Words(s) != [] {
      JoinWordsBody(Words(s));
      BodyKeepsSomething(SlugBase(ascii));
    }
  }

  lemma SkillStem()
    ensures SlugBase("Skill") == "skill" && Stem("Skill") == "e_skill"
  {
    assert Lower("Skill") == "skill" by { LowerWord(); }
    CollapseWord();
    assert StripLeft("skill") == "skill" && StripRight("skill") == "skill";
    assert "e_" + "skill" == "e_skill";
  }

  lemma LowerWord()
    ensures Lower("Skill") == "skill"
  {
    assert "Skill"[1..] == "kill" && "kill"[1..] == "ill" && "ill"[1..] == "ll" && "ll"[1..] == "l" && "l"[1..] == "";
    assert Lower("l") == "l";
    assert Lower("ll") == "l" + Lower("l") == "ll";
    assert Lower("ill") == "i" + Lower("ll") == "ill";
    assert Lower("kill") == "k" + Lower("ill") == "kill";
    assert Lower("Skill") == "s" + Lower("kill") == "skill";
  }

  lemma CollapseWord()
    ensures Collapse("skill") == "skill"
  {
    assert "skill"[1..] == "kill" && "kill"[1..] == "ill" && "ill"[1..] == "ll" && "ll"[1..] == "l" && "l"[1..] == "";
    assert Collapse("l") == "l";
    assert Collapse("ll") == "l" + Collapse("l") == "ll";
    assert Collapse("ill") == "i" + Collapse("ll") == "ill";
    assert Collapse("kill") == "k" + Collapse("ill") == "kill";
    assert Collapse("skill") == "s" + Collapse("kill") == "skill";
  }

  lemma SkillSuffixes()
    ensures Suffixed("e_skill", 2) == "e_skill_2" && Suffixed("e_skill", 3) == "e_skill_3"
    ensures "e_skill_2" != "e_skill" && "e_skill_3" != "e_skill" && "e_skill_3" != "e_skill_2"
    ensures |"e_skill"| == 7
  {
    assert Digits(2) == "2" && Digits(3) == "3";
    SuffixedIs("e_skill", 2);
    SuffixedIs("e_skill", 3);
    assert "e_skill" + "_" + "2" == "e_skill_2" && "e_skill" + "_" + "3" == "e_skill_3";
    assert |"e_skill_2"| == 9 && |"e_skill_3"| == 9 && "e_skill_2"[8] == '2' && "e_skill_3"[8] == '3';
  }

  /** "Skill" once, twice and a third time. */
  lemma SkillIdentifiers()
    ensures SqlIdentifier("Skill", {}) == "e_skill"
    ensures SqlIdentifier("Skill", {"e_skill"}) == "e_skill_2"
    ensures SqlIdentifier("Skill", {"e_skill", "e_skill_2"}) == "e_skill_3"
  {
    SkillStem();
    SkillSuffixes();
    SecondFree("e_skill", {"e_skill"});
    ThirdFree("e_skill", {"e_skill", "e_skill_2"});
  }

  lemma SecondFree(stem: string, taken: set<string>)
    requires Suffixed(stem, 2) !in taken
    ensures FirstFree(stem, 2, taken) == 2
  {
  }

  lemma ThirdFree(stem: string, taken: set<string>)
    requires Suffixed(stem, 2) in taken && Suffixed(stem, 3) !in taken
    ensures FirstFree(stem, 2, taken) == 3
  {
    SecondFreeSkipped(stem, taken - {Suffixed(stem, 2)});
  }

  lemma SecondFreeSkipped(stem: string, taken: set<string>)
    requires Suffixed(stem, 3) !in taken
    ensures FirstFree(stem, 3, taken) == 3
  {
  }
}
