/** The round trip: an expression tree printed fully parenthesised resolves to its own value. */
module TemplateLaws {
  import opened Wrappers
  import opened Template

  // ----- trees -----

  datatype Expr =
    | Path(head: string, steps: seq<PathPart>)
    | Keyword(word: string)
    | Numeral(negative: bool, whole: string, fraction: string)
    | Quoted(quote: char, body: string)
    | Not(operand: Expr)
    | Equal(op: Comparison, left: Expr, right: Expr)

  datatype PathPart = Field(name: string) | Index(key: Expr)

  /** `==`, `!=`, `===` and `!==`. */
  datatype Comparison = Comparison(loose: bool, negated: bool)

  /** The tree's grammar is spelled out, not taken from the resolver. */
  predicate IsIdent(s: string) {
    && s != "" && !('0' <= s[0] <= '9')
    && forall i :: 0 <= i < |s| ==>
         'a' <= s[i] <= 'z' || 'A' <= s[i] <= 'Z' || '0' <= s[i] <= '9' || s[i] == '_' || s[i] == '$'
  }

  predicate IsDigits(s: string) {
    s != "" && forall i :: 0 <= i < |s| ==> '0' <= s[i] <= '9'
  }

  /** No character any scanner counts, and no `=`. */
  predicate IsPlain(s: string) {
    forall i :: 0 <= i < |s| ==> s[i] !in ['(', ')', '[', ']', '=']
  }

  const KEYWORDS: seq<string> := ["true", "false", "null", "undefined"]

  predicate WellFormed(e: Expr)
    decreases e
  {
    match e
    case Path(head, steps) => IsIdent(head) && (steps == [] ==> head !in KEYWORDS) && forall p :: p in steps ==> WellFormedPart(p)
    case Keyword(word) => word in KEYWORDS
    case Numeral(_, whole, fraction) => IsDigits(whole) && (fraction != "" ==> IsDigits(fraction))
    case Quoted(quote, body) => quote in ['"', '\''] && IsPlain(body)
    case Not(operand) => WellFormed(operand)
    case Equal(_, left, right) => WellFormed(left) && WellFormed(right)
  }

  predicate WellFormedPart(p: PathPart)
    decreases p
  {
    match p
    case Field(name) => IsIdent(name) || IsDigits(name)
    case Index(key) => WellFormed(key)
  }

  function Print(e: Expr): string
    decreases e
  {
    match e
    case Path(head, steps) => head + PrintSteps(steps)
    case Keyword(word) => word
    case Numeral(negative, whole, fraction) => NumeralText(negative, whole, fraction)
    case Quoted(quote, body) => [quote] + body + [quote]
    case Not(operand) => Wrapped("!" + Print(operand))
    case Equal(op, left, right) => Wrapped(Print(left) + Symbol(op) + Print(right))
  }

  function NumeralText(negative: bool, whole: string, fraction: string): string {
    (if negative then "-" else "") + whole + if fraction == "" then "" else "." + fraction
  }

  function Wrapped(s: string): string {
    "(" + s + ")"
  }

  function OperatorText(op: Comparison): string {
    (if op.negated then "!" else "=") + if op.loose then "=" else "=="
  }

  function Symbol(op: Comparison): string {
    " " + OperatorText(op) + " "
  }

  function PrintSteps(steps: seq<PathPart>): string
    decreases steps
  {
    if steps == [] then "" else PrintPart(steps[0]) + PrintSteps(steps[1..])
  }

  function PrintPart(p: PathPart): string
    decreases p
  {
    match p
    case Field(name) => "." + name
    case Index(key) => "[" + Print(key) + "]"
  }

  function KeywordValue(word: string): Value {
    if word == "true" then Bool(true) else if word == "false" then Bool(false) else if word == "null" then Null else Undefined
  }

  // What the language means by a truth value, by strict equality and by property access, value by value.

  predicate IsFalsy(v: Value) {
    || v == Undefined || v == Null || v == Bool(false) || v == Number(Finite(0.0)) || v == Number(NaN) || v == Text("")
  }

  predicate IsSame(a: Value, b: Value) {
    match a
    case Undefined => b.Undefined?
    case Null => b.Null?
    case Bool(x) => b.Bool? && b.b == x
    case Number(NaN) => false
    case Number(Infinite(negative)) => b.Number? && b.n.Infinite? && b.n.negative == negative
    case Number(Finite(x)) => b.Number? && b.n.Finite? && b.n.value == x
    case Text(x) => b.Text? && b.s == x
    case Object(x) => b.Object? && b.id == x
  }

  predicate Compared(h: Host, op: Comparison, a: Value, b: Value) {
    (if op.loose then h.looseEquals(a, b) else IsSame(a, b)) != op.negated
  }

  function Property(h: Host, v: Value, key: Value): Value {
    match v
    case Undefined => Undefined
    case Null => Undefined
    case _ => h.get(v, key)
  }

  /** The tree's own meaning. */
  function Eval(h: Host, vals: Value, e: Expr): Value
    decreases e
  {
    match e
    case Path(head, steps) => EvalSteps(h, vals, steps, Property(h, vals, Text(head)))
    case Keyword(word) => KeywordValue(word)
    case Numeral(negative, whole, fraction) => Number(h.number(NumeralText(negative, whole, fraction)))
    case Quoted(_, body) => Text(body)
    case Not(operand) => Bool(IsFalsy(Eval(h, vals, operand)))
    case Equal(op, left, right) => Bool(Compared(h, op, Eval(h, vals, left), Eval(h, vals, right)))
  }

  function EvalSteps(h: Host, vals: Value, steps: seq<PathPart>, cur: Value): Value
    decreases steps
  {
    if steps == [] then cur else EvalSteps(h, vals, steps[1..], Property(h, cur, EvalPart(h, vals, steps[0])))
  }

  function EvalPart(h: Host, vals: Value, p: PathPart): Value
    decreases p
  {
    match p
    case Field(name) => Text(name)
    case Index(key) => Eval(h, vals, key)
  }

  // ----- one abstract scan behind the three scanners -----

  /** Which brackets count, and whether `=` is refused at depth 0. */
  datatype Kind = Kind(parens: bool, brackets: bool, quiet: bool)

  const PARENS := Kind(true, false, false)
  const BRACKETS := Kind(false, true, false)
  const QUIET := Kind(true, true, true)

  /** The depth after `s`, starting from `d`; `None` once the depth would go below zero or a refused
      `=` is met. */
  function Scan(s: string, d: nat, k: Kind): Option<nat> {
    if s == "" then Some(d)
    else if (k.parens && s[0] == '(') || (k.brackets && s[0] == '[') then Scan(s[1..], d + 1, k)
    else if (k.parens && s[0] == ')') || (k.brackets && s[0] == ']') then (if d == 0 then None else Scan(s[1..], d - 1, k))
    else if k.quiet && d == 0 && s[0] == '=' then None
    else Scan(s[1..], d, k)
  }

  lemma {:induction false} ScanConcat(s: string, t: string, d: nat, k: Kind)
    ensures Scan(s + t, d, k) == match Scan(s, d, k) case None => None case Some(e) => Scan(t, e, k)
    decreases |s|
  {
    if s == "" {
      assert s + t == t;
    } else {
      assert (s + t)[0] == s[0] && (s + t)[1..] == s[1..] + t;
      if (k.parens && s[0] == '(') || (k.brackets && s[0] == '[') {
        ScanConcat(s[1..], t, d + 1, k);
      } else if (k.parens && s[0] == ')') || (k.brackets && s[0] == ']') {
        if d > 0 { ScanConcat(s[1..], t, d - 1, k); }
      } else {
        ScanConcat(s[1..], t, d, k);
      }
    }
  }

  lemma {:induction false} ScanDeeper(s: string, d: nat, k: Kind)
    requires Scan(s, d, k).Some?
    ensures Scan(s, d + 1, k) == Some(Scan(s, d, k).value + 1)
    decreases |s|
  {
    if s != "" {
      if (k.parens && s[0] == '(') || (k.brackets && s[0] == '[') {
        ScanDeeper(s[1..], d + 1, k);
      } else if (k.parens && s[0] == ')') || (k.brackets && s[0] == ']') {
        ScanDeeper(s[1..], d - 1, k);
      } else {
        ScanDeeper(s[1..], d, k);
      }
    }
  }

  /** No brackets, and `=` only where it does not count. */
  predicate IsInert(s: string, d: nat, k: Kind) {
    forall i :: 0 <= i < |s| ==> s[i] !in ['(', ')', '[', ']'] && (k.quiet && d == 0 ==> s[i] != '=')
  }

  lemma {:induction false} ScanInert(s: string, d: nat, k: Kind)
    requires IsInert(s, d, k)
    ensures Scan(s, d, k) == Some(d)
    decreases |s|
  {
    if s != "" { ScanInert(s[1..], d, k); }
  }

  lemma ScanPlain(s: string, d: nat, k: Kind)
    requires IsPlain(s)
    ensures Scan(s, d, k) == Some(d)
  {
    ScanInert(s, d, k);
  }

  lemma ScanWrapped(s: string, k: Kind, open: char, close: char)
    requires Scan(s, 0, k) == Some(0)
    requires (open == '(' && close == ')') || (open == '[' && close == ']')
    ensures Scan([open] + s + [close], 0, k) == Some(0)
  {
    ScanDeeper(s, 0, k);
    var counted := (k.parens && open == '(') || (k.brackets && open == '[');
    var d := if counted then 1 else 0;
    assert Scan([open], 0, k) == Some(d) by { assert [open][1..] == ""; }
    assert Scan([close], d, k) == Some(0) by { assert [close][1..] == ""; }
    ScanConcat([open], s, 0, k);
    ScanConcat([open] + s, [close], 0, k);
  }

  lemma IdentIsPlain(s: string)
    requires IsIdent(s) || IsDigits(s)
    ensures IsPlain(s)
  {
  }

  lemma {:induction false} DigitsPrefixPlain(s: string)
    ensures forall i :: 0 <= i < DigitsPrefix(s) ==> IsDigit(s[i])
  {
    if s != "" && IsDigit(s[0]) { DigitsPrefixPlain(s[1..]); }
  }

  lemma UnsignedChars(t: string, d: nat)
    requires d == DigitsPrefix(t) && d > 0
    requires d == |t| || (t[d] == '.' && d + 1 < |t| && d + 1 + DigitsPrefix(t[d + 1..]) == |t|)
    ensures forall i :: 0 <= i < |t| && i != d ==> IsDigit(t[i])
    ensures IsDigit(t[0]) && IsDigit(t[|t| - 1])
  {
    DigitsPrefixPlain(t);
    if d != |t| {
      DigitsPrefixPlain(t[d + 1..]);
      assert forall i :: d + 1 <= i < |t| ==> t[i] == t[d + 1..][i - d - 1];
    }
  }

  lemma NumberChars(s: string)
    requires IsNumber(s)
    ensures s != "" && (IsDigit(s[0]) || s[0] == '-') && IsDigit(s[|s| - 1])
    ensures IsPlain(s)
  {
    var t := if s[0] == '-' then s[1..] else s;
    UnsignedChars(t, DigitsPrefix(t));
    var shift := |s| - |t|;
    forall i | shift <= i < |s| ensures s[i] == t[i - shift] && s[i] !in ['(', ')', '[', ']', '='] {
      if i - shift != DigitsPrefix(t) { assert IsDigit(t[i - shift]); }
    }
  }

  lemma {:induction false} DigitsPrefixOf(s: string, n: nat)
    requires n <= |s| && (forall i :: 0 <= i < n ==> '0' <= s[i] <= '9') && (n < |s| ==> !('0' <= s[n] <= '9'))
    ensures DigitsPrefix(s) == n
  {
    if n > 0 { DigitsPrefixOf(s[1..], n - 1); }
  }

  lemma UnsignedIsNumber(whole: string, fraction: string)
    requires IsDigits(whole) && (fraction != "" ==> IsDigits(fraction))
    ensures IsNumber(NumeralText(false, whole, fraction))
  {
    var t := NumeralText(false, whole, fraction);
    assert t == whole + if fraction == "" then "" else "." + fraction;
    assert t[0] == whole[0];
    DigitsPrefixOf(t, |whole|);
    if fraction != "" {
      assert t[|whole| + 1..] == fraction;
      DigitsPrefixOf(fraction, |fraction|);
    }
  }

  lemma SignedIsNumber(t: string)
    requires IsNumber(t) && t != "" && '0' <= t[0] <= '9'
    ensures IsNumber("-" + t)
  {
    assert ("-" + t)[1..] == t;
  }

  lemma SignInFront(negative: bool, whole: string, fraction: string)
    ensures NumeralText(negative, whole, fraction) == if negative then "-" + NumeralText(false, whole, fraction) else NumeralText(false, whole, fraction)
  {
    var tail := if fraction == "" then "" else "." + fraction;
    assert "-" + whole + tail == "-" + (whole + tail);
    assert "" + whole + tail == whole + tail;
  }

  lemma NumeralIsNumber(e: Expr)
    requires WellFormed(e) && e.Numeral?
    ensures IsNumber(Print(e))
    ensures Print(e) != "" && ('0' <= Print(e)[0] <= '9' || Print(e)[0] == '-') && '0' <= Print(e)[|Print(e)| - 1] <= '9'
    ensures IsPlain(Print(e))
  {
    var t := NumeralText(false, e.whole, e.fraction);
    UnsignedIsNumber(e.whole, e.fraction);
    SignInFront(e.negative, e.whole, e.fraction);
    NumberChars(t);
    assert t[0] == e.whole[0];
    SignedIsNumber(t);
    NumberChars(Print(e));
  }

  /** A printed tree is balanced for every kind of bracket counting, alone or together, and shows no
      `=` outside its brackets. */
  lemma {:induction false} PrintBalanced(e: Expr, k: Kind)
    requires WellFormed(e) && (k.quiet ==> k.parens)
    ensures Scan(Print(e), 0, k) == Some(0)
    decreases e
  {
    match e {
      case Path(head, steps) =>
        IdentIsPlain(head);
        ScanPlain(head, 0, k);
        StepsBalanced(steps, k);
        ScanConcat(head, PrintSteps(steps), 0, k);
      case Not(operand) =>
        PrintBalanced(operand, k);
        NotBalanced(Print(operand), k);
      case Equal(op, left, right) =>
        PrintBalanced(left, k);
        PrintBalanced(right, k);
        EqualBalanced(Print(left), Print(right), op, k);
      case _ =>
        LeafPlain(e);
        ScanPlain(Print(e), 0, k);
    }
  }

  lemma LeafPlain(e: Expr)
    requires WellFormed(e) && (e.Keyword? || e.Numeral? || e.Quoted?)
    ensures IsPlain(Print(e))
  {
    if e.Numeral? { NumeralIsNumber(e); }
    if e.Keyword? { KeywordLetters(e.word); }
  }

  lemma NotBalanced(x: string, k: Kind)
    requires Scan(x, 0, k) == Some(0)
    ensures Scan(Wrapped("!" + x), 0, k) == Some(0)
  {
    ScanPlain("!", 0, k);
    ScanConcat("!", x, 0, k);
    ScanWrapped("!" + x, k, '(', ')');
  }

  lemma EqualBalanced(l: string, r: string, op: Comparison, k: Kind)
    requires Scan(l, 0, k) == Some(0) && Scan(r, 0, k) == Some(0)
    requires k.quiet ==> k.parens
    ensures Scan(Wrapped(l + Symbol(op) + r), 0, k) == Some(0)
  {
    var d: nat := if k.parens then 1 else 0;
    ScanDeeper(l, 0, k);
    ScanDeeper(r, 0, k);
    ScanInert(Symbol(op), d, k);
    ScanConcat(l, Symbol(op), d, k);
    ScanConcat(l + Symbol(op), r, d, k);
    ScanOne('(', 0, k);
    ScanOne(')', d, k);
    ScanConcat("(", l + Symbol(op) + r, 0, k);
    ScanConcat("(" + (l + Symbol(op) + r), ")", 0, k);
  }

  lemma ScanOne(c: char, d: nat, k: Kind)
    ensures c == '(' ==> Scan([c], d, k) == Some(if k.parens then d + 1 else d)
    ensures c == ')' && (k.parens ==> d > 0) ==> Scan([c], d, k) == Some(if k.parens then d - 1 else d)
  {
    assert [c][1..] == "";
  }

  lemma {:induction false} StepsBalanced(steps: seq<PathPart>, k: Kind)
    requires (forall p :: p in steps ==> WellFormedPart(p)) && (k.quiet ==> k.parens)
    ensures Scan(PrintSteps(steps), 0, k) == Some(0)
    decreases steps
  {
    if steps != [] {
      assert steps[0] in steps;
      PartBalanced(steps[0], k);
      StepsBalanced(steps[1..], k);
      ScanConcat(PrintPart(steps[0]), PrintSteps(steps[1..]), 0, k);
    }
  }

  lemma {:induction false} PartBalanced(p: PathPart, k: Kind)
    requires WellFormedPart(p) && (k.quiet ==> k.parens)
    ensures Scan(PrintPart(p), 0, k) == Some(0)
    decreases p
  {
    match p {
      case Field(name) =>
        IdentIsPlain(name);
        ScanPlain("." + name, 0, k);
      case Index(key) =>
        PrintBalanced(key, k);
        ScanWrapped(Print(key), k, '[', ']');
    }
  }

  // ----- the scanners pass over balanced text -----

  /** `t` sits in `s` at position `i`. */
  predicate SitsAt(s: string, i: nat, t: string) {
    i + |t| <= |s| && s[i..i + |t|] == t
  }

  lemma SitsTail(s: string, i: nat, t: string)
    requires SitsAt(s, i, t) && t != ""
    ensures s[i] == t[0] && SitsAt(s, i + 1, t[1..])
  {
    assert s[i] == s[i..i + |t|][0];
    assert s[i + 1..i + |t|] == s[i..i + |t|][1..];
  }

  lemma {:induction false} ClosePasses(s: string, i: nat, t: string, d: nat)
    requires SitsAt(s, i, t) && Scan(t, d, BRACKETS).Some?
    ensures CloseFrom(s, i, d + 1) == CloseFrom(s, i + |t|, Scan(t, d, BRACKETS).value + 1)
    decreases |t|
  {
    if t != "" {
      SitsTail(s, i, t);
      if t[0] == '[' {
        ClosePasses(s, i + 1, t[1..], d + 1);
      } else if t[0] == ']' {
        ClosePasses(s, i + 1, t[1..], d - 1);
      } else {
        ClosePasses(s, i + 1, t[1..], d);
      }
    }
  }

  /** Inside one open parenthesis the scan never closes it. */
  lemma {:induction false} WrapPasses(s: string, i: nat, t: string, d: nat)
    requires SitsAt(s, i, t) && i + |t| < |s| && Scan(t, d, PARENS).Some?
    ensures WrapsFrom(s, i, d + 1) == WrapsFrom(s, i + |t|, Scan(t, d, PARENS).value + 1)
    decreases |t|
  {
    if t != "" {
      SitsTail(s, i, t);
      if t[0] == '(' {
        WrapPasses(s, i + 1, t[1..], d + 1);
      } else if t[0] == ')' {
        WrapPasses(s, i + 1, t[1..], d - 1);
      } else {
        WrapPasses(s, i + 1, t[1..], d);
      }
    }
  }

  /** No operator starts in text that shows no `=` at depth 0, provided none follows it directly. */
  lemma {:induction false} EqualityPasses(s: string, i: nat, t: string, d: nat)
    requires SitsAt(s, i, t) && Scan(t, d, QUIET).Some?
    requires i + |t| < |s| ==> s[i + |t|] != '='
    ensures EqualityFrom(s, i, d) == EqualityFrom(s, i + |t|, Scan(t, d, QUIET).value)
    decreases |t|
  {
    if t != "" {
      SitsTail(s, i, t);
      var rest := t[1..];
      if t[0] == '(' || t[0] == '[' {
        EqualityPasses(s, i + 1, rest, d + 1);
      } else if t[0] == ')' || t[0] == ']' {
        EqualityPasses(s, i + 1, rest, d - 1);
      } else {
        if rest != "" { SitsTail(s, i + 1, rest); }
        assert d == 0 && i + 1 < |s| ==> s[i + 1] != '=';
        EqualityPasses(s, i + 1, rest, d);
      }
    }
  }

  // ----- the ends of printed text -----

  predicate IsBracketed(e: Expr) {
    e.Not? || e.Equal?
  }

  lemma {:induction false} StepsLast(steps: seq<PathPart>)
    requires (forall p :: p in steps ==> WellFormedPart(p)) && steps != []
    ensures var s := PrintSteps(steps);
            s != "" && s[0] in ['.', '['] && (s[|s| - 1] == ']' || IsIdentPart(s[|s| - 1]))
    decreases steps
  {
    assert steps[0] in steps;
    var p := PrintPart(steps[0]);
    assert p[0] in ['.', '['] && (p[|p| - 1] == ']' || IsIdentPart(p[|p| - 1]));
    if |steps| > 1 {
      StepsLast(steps[1..]);
      var s, t := PrintSteps(steps), PrintSteps(steps[1..]);
      assert s[|s| - 1] == t[|t| - 1];
    } else {
      assert PrintSteps(steps[1..]) == "";
      assert PrintSteps(steps) == p;
    }
  }

  predicate CleanEnds(s: string, bracketed: bool) {
    && s != "" && !IsSpace(s[0]) && !IsSpace(s[|s| - 1])
    && s[0] !in ['=', '!'] && s[|s| - 1] != '='
    && (s[0] == '(' <==> bracketed) && (s[|s| - 1] == ')' <==> bracketed)
  }

  lemma WrappedEnds(x: string)
    ensures CleanEnds(Wrapped(x), true)
  {
  }

  lemma LeafEnds(e: Expr)
    requires WellFormed(e) && (e.Keyword? || e.Numeral? || e.Quoted?)
    ensures CleanEnds(Print(e), false)
  {
    match e {
      case Numeral(_, _, _) =>
        NumeralIsNumber(e);
        NumeralEnds(Print(e));
      case Keyword(word) => KeywordEnds(word);
      case Quoted(quote, body) => QuotedEnds(quote, body);
    }
  }

  lemma NumeralEnds(s: string)
    requires s != "" && ('0' <= s[0] <= '9' || s[0] == '-') && '0' <= s[|s| - 1] <= '9'
    ensures CleanEnds(s, false)
  {
  }

  lemma KeywordEnds(word: string)
    requires word in KEYWORDS
    ensures CleanEnds(word, false)
  {
    KeywordLetters(word);
    assert word != "";
  }

  lemma QuotedEnds(quote: char, body: string)
    requires quote in ['"', '\'']
    ensures CleanEnds([quote] + body + [quote], false)
  {
    var s := [quote] + body + [quote];
    assert s[0] == quote && s[|s| - 1] == quote;
  }

  lemma PrintEnds(e: Expr)
    requires WellFormed(e)
    ensures CleanEnds(Print(e), IsBracketed(e))
  {
    match e {
      case Path(head, steps) => PathEnds(head, steps);
      case Not(operand) => WrappedEnds("!" + Print(operand));
      case Equal(op, left, right) => WrappedEnds(Print(left) + Symbol(op) + Print(right));
      case _ => LeafEnds(e);
    }
  }

  lemma PathEnds(head: string, steps: seq<PathPart>)
    requires IsIdent(head) && forall p :: p in steps ==> WellFormedPart(p)
    ensures CleanEnds(head + PrintSteps(steps), false)
  {
    var s := head + PrintSteps(steps);
    assert s[0] == head[0];
    if steps == [] { assert s == head; } else { StepsLast(steps); }
  }

  lemma TrimNothing(s: string)
    requires s != "" && !IsSpace(s[0]) && !IsSpace(s[|s| - 1])
    ensures Trim(s) == s
  {
  }

  lemma TrimAround(s: string)
    requires s != "" && !IsSpace(s[0]) && !IsSpace(s[|s| - 1])
    ensures Trim(s + " ") == s && Trim(" " + s) == s
  {
    var a, b := s + " ", " " + s;
    assert a[0] == s[0] && a[|a| - 1] == ' ' && a[..|a| - 1] == s;
    assert TrimLeft(a) == a && TrimRight(a) == TrimRight(s) == s;
    assert b[0] == ' ' && b[1..] == s;
    assert TrimLeft(b) == TrimLeft(s) == s;
  }

  // ----- one lemma per form -----

  lemma TrimmedResolves(h: Host, vals: Value, x: string)
    requires x != "" && !IsSpace(x[0]) && !IsSpace(x[|x| - 1])
    ensures Resolve(h, vals, x) == ResolveTrimmed(h, vals, x)
    ensures Resolve(h, vals, x + " ") == ResolveTrimmed(h, vals, x)
    ensures Resolve(h, vals, " " + x) == ResolveTrimmed(h, vals, x)
  {
    TrimNothing(x);
    TrimAround(x);
  }

  lemma WrappedWraps(x: string)
    requires Scan(x, 0, PARENS) == Some(0)
    ensures WrapsFrom(Wrapped(x), 0, 0)
  {
    var s := Wrapped(x);
    assert SitsAt(s, 1, x);
    if x != "" { WrapPasses(s, 1, x, 0); }
  }

  lemma WrappedResolves(h: Host, vals: Value, x: string)
    requires x != "" && !IsSpace(x[0]) && !IsSpace(x[|x| - 1]) && Scan(x, 0, PARENS) == Some(0)
    ensures ResolveTrimmed(h, vals, Wrapped(x)) == ResolveTrimmed(h, vals, x)
  {
    var s := Wrapped(x);
    WrappedWraps(x);
    assert s[0] == '(' && s[|s| - 1] == ')' && s[1..|s| - 1] == x;
    TrimmedResolves(h, vals, x);
  }

  lemma NoEquality(s: string)
    requires Scan(s, 0, QUIET).Some?
    ensures EqualityFrom(s, 0, 0).None?
  {
    assert SitsAt(s, 0, s);
    EqualityPasses(s, 0, s, 0);
  }

  lemma NotResolves(h: Host, vals: Value, x: string, bracketed: bool)
    requires CleanEnds(x, bracketed) && Scan(x, 0, QUIET).Some?
    ensures ResolveTrimmed(h, vals, "!" + x) == Bool(!Truthy(ResolveTrimmed(h, vals, x)))
  {
    var s := "!" + x;
    assert s[0] == '!' && s[1] == x[0] && s[1..] == x;
    assert SitsAt(s, 1, x);
    EqualityPasses(s, 1, x, 0);
    assert EqualityFrom(s, 0, 0) == EqualityFrom(s, 1, 0);
    TrimmedResolves(h, vals, x);
  }

  /** A comparison whose sides are balanced is not mistaken for one parenthesised whole. */
  lemma ComparisonUnwrapped(l: string, lx: string, tail: string)
    requires l == Wrapped(lx) && Scan(lx, 0, PARENS) == Some(0) && tail != ""
    ensures !WrapsFrom(l + tail, 0, 0)
  {
    var s := l + tail;
    assert s[0] == '(' && s[1 + |lx|] == ')';
    assert s[1..1 + |lx|] == lx;
    WrapPasses(s, 1, lx, 0);
  }

  lemma OperatorStarts(s: string, l: string)
    requires l != "" && !IsSpace(l[0]) && !IsSpace(l[|l| - 1])
    requires |l| + 4 <= |s| && s[..|l| + 1] == l + " "
    requires s[|l| + 1] in ['=', '!'] && s[|l| + 2] == '='
    ensures s[|l|] == ' ' && StartsEquality(s, |l| + 1)
  {
    assert s[|l|] == s[..|l| + 1][|l|] == ' ';
    TrimAround(l);
  }

  lemma OperatorHere(s: string, l: string)
    requires l != "" && !IsSpace(l[0]) && !IsSpace(l[|l| - 1])
    requires |l| + 4 <= |s| && s[..|l| + 1] == l + " "
    requires s[|l| + 1] in ['=', '!'] && s[|l| + 2] == '='
    ensures EqualityFrom(s, |l|, 0) == Some(Operator(|l| + 1, [s[|l| + 1]] + if s[|l| + 3] == '=' then "==" else "="))
  {
    OperatorStarts(s, l);
    OperatorFound(s, |l| + 1);
    assert EqualityFrom(s, |l|, 0) == EqualityFrom(s, |l| + 1, 0);
  }

  lemma OperatorFound(s: string, i: nat)
    requires i + 2 < |s| && s[i] in ['=', '!'] && StartsEquality(s, i)
    ensures EqualityFrom(s, i, 0) == Some(Operator(i, [s[i]] + if s[i + 2] == '=' then "==" else "="))
  {
  }

  lemma OperatorChars(op: Comparison)
    ensures |OperatorText(op)| == if op.loose then 2 else 3
    ensures OperatorText(op)[0] == (if op.negated then '!' else '=') && OperatorText(op)[1] == '='
    ensures OperatorText(op) == [OperatorText(op)[0]] + if op.loose then "=" else "=="
    ensures !op.loose ==> OperatorText(op)[2] == '='
  {
  }

  lemma ComparisonOperator(l: string, r: string, op: Comparison, bl: bool)
    requires CleanEnds(l, bl) && Scan(l, 0, QUIET) == Some(0)
    ensures EqualityFrom(l + Symbol(op) + r, 0, 0) == Some(Operator(|l| + 1, OperatorText(op)))
  {
    var s := l + Symbol(op) + r;
    var i := |l| + 1;
    OperatorChars(op);
    assert Symbol(op)[1..1 + |OperatorText(op)|] == OperatorText(op);
    assert s[|l|] == ' ' && s[i] == OperatorText(op)[0] && s[i + 1] == '=' && s[i + 2] == if op.loose then ' ' else '=';
    assert SitsAt(s, 0, l);
    EqualityPasses(s, 0, l, 0);
    assert s[..i] == l + " ";
    OperatorHere(s, l);
  }

  lemma OperatorSplits(h: Host, vals: Value, s: string, op: Operator)
    requires s != "" && !(s[0] == '(' && s[|s| - 1] == ')' && WrapsFrom(s, 0, 0))
    requires EqualityFrom(s, 0, 0) == Some(op)
    ensures ResolveTrimmed(h, vals, s) ==
            Bool(Compare(h, op.symbol, Resolve(h, vals, s[..op.index]), Resolve(h, vals, s[op.index + |op.symbol|..])))
  {
  }

  lemma ComparisonSlices(l: string, r: string, op: Comparison)
    ensures var s, n := l + Symbol(op) + r, |OperatorText(op)|;
            |l| + 1 + n <= |s| && s[..|l| + 1] == l + " " && s[|l| + 1 + n..] == " " + r
  {
  }

  lemma ComparisonShape(l: string, r: string, op: Comparison, bl: bool, br: bool, lx: string)
    requires CleanEnds(l, bl) && CleanEnds(r, br)
    requires bl ==> l == Wrapped(lx) && Scan(lx, 0, PARENS) == Some(0)
    ensures var s := l + Symbol(op) + r;
            s != "" && !(s[0] == '(' && s[|s| - 1] == ')' && WrapsFrom(s, 0, 0))
  {
    var s, tail := l + Symbol(op) + r, Symbol(op) + r;
    assert s == l + tail;
    assert s[0] == l[0] && s[|s| - 1] == r[|r| - 1];
    if bl { ComparisonUnwrapped(l, lx, tail); }
  }

  /** Where the comparison is split, in the text alone. */
  lemma ComparisonText(l: string, r: string, op: Comparison, bl: bool, br: bool, lx: string, s: string)
    requires CleanEnds(l, bl) && CleanEnds(r, br) && Scan(l, 0, QUIET) == Some(0)
    requires bl ==> l == Wrapped(lx) && Scan(lx, 0, PARENS) == Some(0)
    requires s == l + Symbol(op) + r
    ensures s != "" && !(s[0] == '(' && s[|s| - 1] == ')' && WrapsFrom(s, 0, 0))
    ensures SplitAt(s, l, r, OperatorText(op))
  {
    ComparisonShape(l, r, op, bl, br, lx);
    ComparisonOperator(l, r, op, bl);
    ComparisonSlices(l, r, op);
  }

  predicate SplitAt(s: string, l: string, r: string, symbol: string) {
    && EqualityFrom(s, 0, 0) == Some(Operator(|l| + 1, symbol))
    && |l| + 1 + |symbol| <= |s| && s[..|l| + 1] == l + " " && s[|l| + 1 + |symbol|..] == " " + r
  }

  lemma ComparisonResolves(h: Host, vals: Value, s: string, l: string, r: string, op: Comparison, a: Value, b: Value)
    requires s != "" && !(s[0] == '(' && s[|s| - 1] == ')' && WrapsFrom(s, 0, 0)) && SplitAt(s, l, r, OperatorText(op))
    requires Resolve(h, vals, l + " ") == a && Resolve(h, vals, " " + r) == b
    ensures ResolveTrimmed(h, vals, s) == Bool(Compared(h, op, a, b))
  {
    OperatorSplits(h, vals, s, Operator(|l| + 1, OperatorText(op)));
    CompareIs(h, op, a, b);
  }

  lemma StrictIsSame(a: Value, b: Value)
    ensures StrictEquals(a, b) <==> IsSame(a, b)
  {
  }

  lemma CompareIs(h: Host, op: Comparison, a: Value, b: Value)
    ensures Compare(h, OperatorText(op), a, b) == Compared(h, op, a, b)
  {
    StrictIsSame(a, b);
    OperatorChars(op);
  }

  lemma FalsyIff(v: Value)
    ensures Truthy(v) <==> !IsFalsy(v)
  {
  }

  lemma AccessIs(h: Host, v: Value, key: Value)
    ensures Access(h, v, key) == Property(h, v, key)
  {
  }

  lemma LeafResolves(h: Host, vals: Value, e: Expr)
    requires WellFormed(e) && (e.Keyword? || e.Numeral? || e.Quoted?)
    ensures ResolveTrimmed(h, vals, Print(e)) == Eval(h, vals, e)
  {
    LeafEnds(e);
    PrintBalanced(e, QUIET);
    NoEquality(Print(e));
    LeafLiteral(h, vals, e);
  }

  lemma LeafLiteral(h: Host, vals: Value, e: Expr)
    requires WellFormed(e) && (e.Keyword? || e.Numeral? || e.Quoted?)
    ensures Literal(h, Print(e)) == Some(Eval(h, vals, e))
  {
    match e {
      case Keyword(word) => assert word in KEYWORDS;
      case Numeral(_, _, _) => NumeralIsNumber(e); KeywordLetters(Print(e));
      case Quoted(quote, body) => QuotedLiteral(h, vals, e);
    }
  }

  lemma QuotedLiteral(h: Host, vals: Value, e: Expr)
    requires WellFormed(e) && e.Quoted?
    ensures Literal(h, Print(e)) == Some(Eval(h, vals, e))
  {
    var s := Print(e);
    assert s[0] == e.quote && s[|s| - 1] == e.quote && s[1..|s| - 1] == e.body;
    if IsNumber(s) { NumberChars(s); }
    KeywordLetters(s);
  }

  lemma {:induction false} IdentPrefixExact(s: string, n: nat)
    requires n <= |s| && IsIdent(s[..n])
    requires n < |s| ==> !IsIdentPart(s[n])
    ensures IdentPrefix(s) == n
  {
    assert s[0] == s[..n][0];
    assert forall i :: 1 <= i < n ==> s[i] == s[..n][i];
    PartsPrefixExact(s[1..], n - 1);
  }

  lemma {:induction false} PartsPrefixExact(s: string, n: nat)
    requires n <= |s| && forall i :: 0 <= i < n ==> IsIdentPart(s[i])
    requires n < |s| ==> !IsIdentPart(s[n])
    ensures PartsPrefix(s) == n
    decreases n
  {
    if n > 0 { PartsPrefixExact(s[1..], n - 1); }
  }

  lemma {:induction false} DigitsPrefixExact(s: string, n: nat)
    requires n <= |s| && forall i :: 0 <= i < n ==> IsDigit(s[i])
    requires n < |s| ==> !IsDigit(s[n])
    ensures DigitsPrefix(s) == n
    decreases n
  {
    if n > 0 { DigitsPrefixExact(s[1..], n - 1); }
  }

  /** The field reader takes the whole name and nothing of what follows. */
  lemma FieldLengthExact(s: string, i: nat, name: string, rest: string)
    requires i <= |s| && s[i..] == name + rest && (IsIdent(name) || IsDigits(name))
    requires rest != "" ==> !IsIdentPart(rest[0])
    ensures FieldLength(s, i) == |name|
    ensures s[i..i + |name|] == name
  {
    var t := s[i..];
    assert t[..|name|] == name;
    assert |name| < |t| ==> t[|name|] == rest[0];
    assert s[i..i + |name|] == t[..|name|];
    assert forall k :: 0 <= k < |name| ==> t[k] == name[k];
    if IsIdent(name) { IdentPrefixExact(t, |name|); } else { DigitsPrefixExact(t, |name|); }
  }

  lemma StepsStart(steps: seq<PathPart>)
    ensures PrintSteps(steps) == "" <==> steps == []
    ensures PrintSteps(steps) != "" ==> PrintSteps(steps)[0] in ['.', '['] && !IsIdentPart(PrintSteps(steps)[0])
  {
  }

  lemma CloseExact(s: string, i: nat, key: string, rest: string)
    requires i < |s| && s[i..] == "[" + key + "]" + rest && Scan(key, 0, BRACKETS) == Some(0)
    ensures CloseFrom(s, i + 1, 1) == Some(i + 1 + |key|)
    ensures i + 2 + |key| <= |s| && s[i + 1..i + 1 + |key|] == key && s[i + 2 + |key|..] == rest
  {
    var t := s[i..];
    assert t[1..1 + |key|] == key && t[1 + |key|] == ']' && t[2 + |key|..] == rest;
    assert s[i + 1..i + 1 + |key|] == t[1..1 + |key|];
    assert s[i + 1 + |key|] == t[1 + |key|];
    assert s[i + 2 + |key|..] == t[2 + |key|..];
    ClosePasses(s, i + 1, key, 0);
  }

  // ----- the round trip -----

  /** How a part of a tree's path is written. */
  function Written(p: PathPart): Part {
    match p
    case Field(name) => Name(name)
    case Index(key) => Inner(Print(key))
  }

  /** From `i` to `end` the text is these parts, one behind the other. */
  predicate Reads(s: string, i: nat, parts: seq<Part>, end: nat)
    decreases |parts|
  {
    if parts == [] then i == end
    else i < |s| && PartAt(s, i) == Some(parts[0]) && Reads(s, i + PartLength(parts[0]), parts[1..], end)
  }

  function AllWritten(steps: seq<PathPart>): seq<Part> {
    if steps == [] then [] else [Written(steps[0])] + AllWritten(steps[1..])
  }

  lemma {:induction false} AllWrittenAt(steps: seq<PathPart>)
    ensures |AllWritten(steps)| == |steps|
    ensures forall k :: 0 <= k < |steps| ==> AllWritten(steps)[k] == Written(steps[k])
  {
    if steps != [] { AllWrittenAt(steps[1..]); }
  }

  /** The text behind a printed path does not run on into it. */
  predicate IsApart(rest: string) {
    rest != "" ==> !IsIdentPart(rest[0])
  }

  /** The printed path, between any texts, reads as its parts. */
  lemma {:induction false} StepsRead(s: string, pre: string, steps: seq<PathPart>, rest: string, end: nat)
    requires s == pre + PrintSteps(steps) + rest && AllSound(steps) && IsApart(rest) && end == |pre| + |PrintSteps(steps)|
    ensures Reads(s, |pre|, AllWritten(steps), end)
    decreases |steps|
  {
    if steps != [] {
      var next := pre + PrintPart(steps[0]);
      FirstReads(s, pre, steps, rest);
      StepsRead(s, next, steps[1..], rest, end);
      ReadsCons(s, |pre|, Written(steps[0]), AllWritten(steps[1..]), end);
    }
  }

  predicate AllSound(steps: seq<PathPart>) {
    steps != [] ==> WellFormedPart(steps[0]) && AllSound(steps[1..])
  }

  lemma {:induction false} EachSound(steps: seq<PathPart>)
    requires forall p :: p in steps ==> WellFormedPart(p)
    ensures AllSound(steps)
  {
    if steps != [] { EachSound(steps[1..]); }
  }

  lemma ReadsCons(s: string, i: nat, p: Part, parts: seq<Part>, end: nat)
    requires i < |s| && PartAt(s, i) == Some(p) && Reads(s, i + PartLength(p), parts, end)
    ensures Reads(s, i, [p] + parts, end)
  {
    assert ([p] + parts)[1..] == parts;
  }

  lemma FirstSlices(s: string, pre: string, first: string, tail: string, rest: string)
    requires s == pre + (first + tail) + rest && first != ""
    ensures |pre| < |s| && s == (pre + first) + tail + rest && s[|pre|..] == first + (tail + rest)
  {
  }

  lemma FirstReads(s: string, pre: string, steps: seq<PathPart>, rest: string)
    requires s == pre + PrintSteps(steps) + rest && steps != [] && WellFormedPart(steps[0]) && IsApart(rest)
    ensures |pre| < |s| && PartAt(s, |pre|) == Some(Written(steps[0])) && PartLength(Written(steps[0])) == |PrintPart(steps[0])|
    ensures s == (pre + PrintPart(steps[0])) + PrintSteps(steps[1..]) + rest
    ensures |PrintSteps(steps)| == |PrintPart(steps[0])| + |PrintSteps(steps[1..])|
  {
    FirstApart(steps, rest);
    FirstSlices(s, pre, PrintPart(steps[0]), PrintSteps(steps[1..]), rest);
    PartReads(s, |pre|, steps[0], PrintSteps(steps[1..]) + rest);
  }

  lemma FirstApart(steps: seq<PathPart>, rest: string)
    requires steps != [] && IsApart(rest)
    ensures PrintSteps(steps) == PrintPart(steps[0]) + PrintSteps(steps[1..]) && PrintPart(steps[0]) != ""
    ensures IsApart(PrintSteps(steps[1..]) + rest)
  {
    StepsStart(steps[1..]);
  }

  lemma PartReads(s: string, i: nat, p: PathPart, rest: string)
    requires WellFormedPart(p) && i < |s| && s[i..] == PrintPart(p) + rest && (rest != "" ==> !IsIdentPart(rest[0]))
    ensures PartAt(s, i) == Some(Written(p)) && PartLength(Written(p)) == |PrintPart(p)|
  {
    if p.Field? {
      FieldReads(s, i, p.name, rest);
    } else {
      PrintBalanced(p.key, BRACKETS);
      InnerReads(s, i, Print(p.key), rest);
    }
  }

  lemma FieldReads(s: string, i: nat, name: string, rest: string)
    requires IsIdent(name) || IsDigits(name)
    requires i < |s| && s[i..] == "." + name + rest && (rest != "" ==> !IsIdentPart(rest[0]))
    ensures PartAt(s, i) == Some(Name(name))
  {
    var t := s[i..];
    assert s[i] == t[0];
    assert s[i + 1..] == t[1..] == name + rest;
    FieldLengthExact(s, i + 1, name, rest);
  }

  lemma InnerReads(s: string, i: nat, x: string, rest: string)
    requires Scan(x, 0, BRACKETS) == Some(0) && i < |s| && s[i..] == "[" + x + "]" + rest
    ensures PartAt(s, i) == Some(Inner(x))
  {
    assert s[i] == s[i..][0];
    CloseExact(s, i, x, rest);
  }

  function Followed(h: Host, cur: Value, vs: seq<Value>): Value
    decreases |vs|
  {
    if vs == [] then cur else Followed(h, Property(h, cur, vs[0]), vs[1..])
  }

  /** The path resolver follows what the parts it reads mean. */
  lemma {:induction false} ReadFollows(
    h: Host, vals: Value, s: string, i: nat, parts: seq<Part>, end: nat, vs: seq<Value>, cur: Value)
    requires Reads(s, i, parts, end) && |vs| == |parts|
    requires forall k :: 0 <= k < |parts| ==> vs[k] == Meaning(h, vals, parts[k])
    ensures PathFrom(h, vals, s, i, cur) == PathFrom(h, vals, s, end, Followed(h, cur, vs))
    decreases |parts|
  {
    if parts != [] {
      FirstFollows(h, vals, s, i, parts, end, cur);
      AccessIs(h, cur, vs[0]);
      ReadFollows(h, vals, s, i + PartLength(parts[0]), parts[1..], end, vs[1..], Property(h, cur, vs[0]));
    }
  }

  lemma FirstFollows(h: Host, vals: Value, s: string, i: nat, parts: seq<Part>, end: nat, cur: Value)
    requires Reads(s, i, parts, end) && parts != []
    ensures Reads(s, i + PartLength(parts[0]), parts[1..], end)
    ensures PathFrom(h, vals, s, i, cur) ==
            PathFrom(h, vals, s, i + PartLength(parts[0]), Access(h, cur, Meaning(h, vals, parts[0])))
  {
  }

  /** So does evaluating it. */
  lemma {:induction false} EvalFollows(h: Host, vals: Value, steps: seq<PathPart>, vs: seq<Value>, cur: Value)
    requires |vs| == |steps| && forall k :: 0 <= k < |steps| ==> vs[k] == EvalPart(h, vals, steps[k])
    ensures EvalSteps(h, vals, steps, cur) == Followed(h, cur, vs)
    decreases |steps|
  {
    if steps != [] { EvalFollows(h, vals, steps[1..], vs[1..], Property(h, cur, vs[0])); }
  }

  lemma {:induction false} KeyResolves(h: Host, vals: Value, p: PathPart)
    requires p.Index? && WellFormedPart(p)
    ensures Meaning(h, vals, Written(p)) == EvalPart(h, vals, p)
    decreases p, 0
  {
    RoundTrip(h, vals, p.key);
    PrintEnds(p.key);
    TrimNothing(Print(p.key));
  }

  lemma KeywordLetters(s: string)
    ensures s in KEYWORDS ==> forall k :: 0 <= k < |s| ==> 'a' <= s[k] <= 'z'
  {
    if s in KEYWORDS {
      assert s == "true" || s == "false" || s == "null" || s == "undefined";
    }
  }

  lemma PathNoLiteral(h: Host, head: string, steps: seq<PathPart>)
    requires IsIdent(head) && (steps == [] ==> head !in KEYWORDS)
    ensures Literal(h, head + PrintSteps(steps)).None?
  {
    var s := head + PrintSteps(steps);
    assert s[0] == head[0];
    if IsNumber(s) { NumberChars(s); }
    if steps == [] {
      assert s == head;
    } else {
      StepsStart(steps);
      assert s[|head|] == PrintSteps(steps)[0];
      KeywordLetters(s);
    }
  }

  lemma {:induction false} KeysResolve(h: Host, vals: Value, steps: seq<PathPart>) returns (vs: seq<Value>)
    requires forall p :: p in steps ==> WellFormedPart(p)
    ensures |vs| == |steps| == |AllWritten(steps)|
    ensures forall k :: 0 <= k < |steps| ==> vs[k] == EvalPart(h, vals, steps[k]) && vs[k] == Meaning(h, vals, AllWritten(steps)[k])
    decreases steps, 1
  {
    vs := seq(|steps|, k requires 0 <= k < |steps| => EvalPart(h, vals, steps[k]));
    AllWrittenAt(steps);
    forall k | 0 <= k < |steps| ensures vs[k] == Meaning(h, vals, AllWritten(steps)[k]) {
      assert steps[k] in steps;
      if steps[k].Index? { KeyResolves(h, vals, steps[k]); }
    }
  }

  lemma HeadIs(s: string, head: string, tail: string)
    requires s == head + tail && IsIdent(head) && IsApart(tail)
    ensures IdentPrefix(s) == |head| && s[..|head|] == head
  {
    assert s[..|head|] == head;
    IdentPrefixExact(s, |head|);
  }

  lemma HeadFollowed(h: Host, vals: Value, s: string, head: string, tail: string)
    requires s == head + tail && IsIdent(head) && IsApart(tail)
    ensures ResolvePath(h, vals, s) == PathFrom(h, vals, s, |head|, Property(h, vals, Text(head)))
  {
    HeadIs(s, head, tail);
    AccessIs(h, vals, Text(head));
  }

  lemma StepsApart(steps: seq<PathPart>, rest: string)
    requires IsApart(rest)
    ensures IsApart(PrintSteps(steps) + rest)
  {
    StepsStart(steps);
  }

  lemma PathText(s: string, head: string, steps: seq<PathPart>, rest: string, n: nat)
    requires (forall p :: p in steps ==> WellFormedPart(p)) && IsApart(rest)
    requires s == head + PrintSteps(steps) + rest && n == |head| + |PrintSteps(steps)|
    ensures s == head + (PrintSteps(steps) + rest) && IsApart(PrintSteps(steps) + rest)
    ensures Reads(s, |head|, AllWritten(steps), n)
  {
    StepsApart(steps, rest);
    EachSound(steps);
    StepsRead(s, head, steps, rest, n);
  }

  lemma StepsFollowed(h: Host, vals: Value, s: string, i: nat, steps: seq<PathPart>, n: nat, vs: seq<Value>, cur: Value)
    requires Reads(s, i, AllWritten(steps), n) && |vs| == |steps| == |AllWritten(steps)|
    requires forall k :: 0 <= k < |steps| ==> vs[k] == EvalPart(h, vals, steps[k]) && vs[k] == Meaning(h, vals, AllWritten(steps)[k])
    ensures PathFrom(h, vals, s, i, cur) == PathFrom(h, vals, s, n, EvalSteps(h, vals, steps, cur))
  {
    ReadFollows(h, vals, s, i, AllWritten(steps), n, vs, cur);
    EvalFollows(h, vals, steps, vs, cur);
  }

  /** The resolver follows a printed path to its end, whatever stands behind it. */
  lemma {:induction false} PathFollowed(h: Host, vals: Value, s: string, head: string, steps: seq<PathPart>, rest: string, n: nat)
    requires IsIdent(head) && (forall p :: p in steps ==> WellFormedPart(p)) && IsApart(rest)
    requires s == head + PrintSteps(steps) + rest && n == |head| + |PrintSteps(steps)|
    ensures ResolvePath(h, vals, s) == PathFrom(h, vals, s, n, EvalSteps(h, vals, steps, Property(h, vals, Text(head))))
    decreases steps, 2
  {
    PathText(s, head, steps, rest, n);
    HeadFollowed(h, vals, s, head, PrintSteps(steps) + rest);
    var vs := KeysResolve(h, vals, steps);
    StepsFollowed(h, vals, s, |head|, steps, n, vs, Property(h, vals, Text(head)));
  }

  lemma {:induction false} PathResolves(h: Host, vals: Value, head: string, steps: seq<PathPart>)
    requires IsIdent(head) && forall p :: p in steps ==> WellFormedPart(p)
    ensures ResolvePath(h, vals, head + PrintSteps(steps)) == EvalSteps(h, vals, steps, Property(h, vals, Text(head)))
    decreases steps, 3
  {
    assert head + PrintSteps(steps) + "" == head + PrintSteps(steps);
    PathFollowed(h, vals, head + PrintSteps(steps), head, steps, "", |head| + |PrintSteps(steps)|);
  }

  lemma NotText(operand: Expr)
    requires WellFormed(operand)
    ensures var x := "!" + Print(operand);
            Scan(x, 0, PARENS) == Some(0) && x != "" && !IsSpace(x[0]) && !IsSpace(x[|x| - 1])
  {
    var x := "!" + Print(operand);
    PrintEnds(operand);
    PrintBalanced(operand, PARENS);
    ScanPlain("!", 0, PARENS);
    ScanConcat("!", Print(operand), 0, PARENS);
    assert x[0] == '!' && x[|x| - 1] == Print(operand)[|Print(operand)| - 1];
  }

  lemma NotUnwraps(h: Host, vals: Value, operand: Expr)
    requires WellFormed(operand)
    ensures ResolveTrimmed(h, vals, Print(Not(operand))) == ResolveTrimmed(h, vals, "!" + Print(operand))
  {
    NotText(operand);
    WrappedResolves(h, vals, "!" + Print(operand));
  }

  lemma NotRoundTrip(h: Host, vals: Value, operand: Expr, v: Value)
    requires WellFormed(operand) && ResolveTrimmed(h, vals, Print(operand)) == v
    ensures ResolveTrimmed(h, vals, Print(Not(operand))) == Bool(IsFalsy(v))
  {
    NotUnwraps(h, vals, operand);
    PrintEnds(operand);
    PrintBalanced(operand, QUIET);
    NotResolves(h, vals, Print(operand), IsBracketed(operand));
    FalsyIff(v);
  }

  /** A printed path is no other form. */
  lemma PathOnly(h: Host, vals: Value, head: string, steps: seq<PathPart>)
    requires WellFormed(Path(head, steps))
    ensures ResolveTrimmed(h, vals, head + PrintSteps(steps)) == ResolvePath(h, vals, head + PrintSteps(steps))
  {
    PathEnds(head, steps);
    PrintBalanced(Path(head, steps), QUIET);
    NoEquality(head + PrintSteps(steps));
    PathNoLiteral(h, head, steps);
  }

  /** Parsing what was printed gives the tree's own value, for every tree, every host and every
      binding of the variables. */
  lemma {:induction false} RoundTrip(h: Host, vals: Value, e: Expr)
    requires WellFormed(e)
    ensures ResolveTrimmed(h, vals, Print(e)) == Eval(h, vals, e)
    decreases e, 3
  {
    match e {
      case Path(head, steps) =>
        PathOnly(h, vals, head, steps);
        PathResolves(h, vals, head, steps);
      case Not(operand) =>
        RoundTrip(h, vals, operand);
        NotRoundTrip(h, vals, operand, Eval(h, vals, operand));
      case Equal(op, left, right) =>
        RoundTrip(h, vals, left);
        RoundTrip(h, vals, right);
        SideResolves(h, vals, left, Eval(h, vals, left));
        SideResolves(h, vals, right, Eval(h, vals, right));
        EqualRoundTrip(h, vals, op, left, right, Eval(h, vals, left), Eval(h, vals, right));
      case _ => LeafResolves(h, vals, e);
    }
  }

  lemma ComparisonBalanced(left: Expr, right: Expr, op: Comparison)
    requires WellFormed(left) && WellFormed(right)
    ensures var x := Print(left) + Symbol(op) + Print(right);
            Scan(x, 0, PARENS) == Some(0) && x != "" && !IsSpace(x[0]) && !IsSpace(x[|x| - 1])
  {
    PrintEnds(left);
    PrintEnds(right);
    PrintBalanced(left, PARENS);
    PrintBalanced(right, PARENS);
    SidesBalanced(Print(left), Print(right), op);
    var x := Print(left) + Symbol(op) + Print(right);
    assert x[0] == Print(left)[0] && x[|x| - 1] == Print(right)[|Print(right)| - 1];
  }

  lemma SidesBalanced(l: string, r: string, op: Comparison)
    requires Scan(l, 0, PARENS) == Some(0) && Scan(r, 0, PARENS) == Some(0)
    ensures Scan(l + Symbol(op) + r, 0, PARENS) == Some(0)
  {
    ScanInert(Symbol(op), 0, PARENS);
    ScanConcat(l, Symbol(op), 0, PARENS);
    ScanConcat(l + Symbol(op), r, 0, PARENS);
  }

  lemma EqualText(op: Comparison, left: Expr, right: Expr)
    requires WellFormed(left) && WellFormed(right)
    ensures var s := Print(left) + Symbol(op) + Print(right);
            && s != "" && !(s[0] == '(' && s[|s| - 1] == ')' && WrapsFrom(s, 0, 0))
            && SplitAt(s, Print(left), Print(right), OperatorText(op))
  {
    PrintEnds(left); PrintEnds(right);
    PrintBalanced(left, QUIET);
    var lx := InsideParens(left);
    ComparisonText(Print(left), Print(right), op, IsBracketed(left), IsBracketed(right), lx, Print(left) + Symbol(op) + Print(right));
  }

  lemma EqualUnwraps(h: Host, vals: Value, op: Comparison, left: Expr, right: Expr)
    requires WellFormed(left) && WellFormed(right)
    ensures ResolveTrimmed(h, vals, Print(Equal(op, left, right))) == ResolveTrimmed(h, vals, Print(left) + Symbol(op) + Print(right))
  {
    ComparisonBalanced(left, right, op);
    WrappedResolves(h, vals, Print(left) + Symbol(op) + Print(right));
  }

  lemma EqualRoundTrip(h: Host, vals: Value, op: Comparison, left: Expr, right: Expr, a: Value, b: Value)
    requires WellFormed(left) && WellFormed(right)
    requires Resolve(h, vals, Print(left) + " ") == a && Resolve(h, vals, " " + Print(right)) == b
    ensures ResolveTrimmed(h, vals, Print(Equal(op, left, right))) == Bool(Compared(h, op, a, b))
  {
    EqualText(op, left, right);
    EqualUnwraps(h, vals, op, left, right);
    ComparisonResolves(h, vals, Print(left) + Symbol(op) + Print(right), Print(left), Print(right), op, a, b);
  }

  /** A side of a comparison has one blank next to the operator. */
  lemma SideResolves(h: Host, vals: Value, e: Expr, v: Value)
    requires WellFormed(e) && ResolveTrimmed(h, vals, Print(e)) == v
    ensures Resolve(h, vals, Print(e) + " ") == v && Resolve(h, vals, " " + Print(e)) == v
  {
    PrintEnds(e);
    TrimmedResolves(h, vals, Print(e));
  }

  lemma InsideParens(e: Expr) returns (x: string)
    requires WellFormed(e)
    ensures IsBracketed(e) ==> Print(e) == Wrapped(x) && Scan(x, 0, PARENS) == Some(0)
  {
    match e {
      case Not(operand) =>
        x := "!" + Print(operand);
        PrintBalanced(operand, PARENS);
        ScanPlain("!", 0, PARENS);
        ScanConcat("!", Print(operand), 0, PARENS);
      case Equal(op, left, right) =>
        x := Print(left) + Symbol(op) + Print(right);
        ComparisonBalanced(left, right, op);
      case _ => x := "";
    }
  }

  predicate IsBlank(s: string) {
    forall i :: 0 <= i < |s| ==> s[i] in [' ', '\t', '\n', '\r']
  }

  lemma {:induction false} TrimLeftPast(before: string, x: string)
    requires IsBlank(before) && x != "" && !IsSpace(x[0])
    ensures TrimLeft(before + x) == x
  {
    if before == "" {
      assert before + x == x;
    } else {
      assert (before + x)[0] == before[0] && (before + x)[1..] == before[1..] + x;
      TrimLeftPast(before[1..], x);
    }
  }

  lemma {:induction false} TrimRightPast(x: string, after: string)
    requires IsBlank(after) && x != "" && !IsSpace(x[|x| - 1])
    ensures TrimRight(x + after) == x
    decreases |after|
  {
    if after == "" {
      assert x + after == x;
    } else {
      var s, front := x + after, after[..|after| - 1];
      assert s[|s| - 1] == after[|after| - 1] && s[..|s| - 1] == x + front;
      TrimRightPast(x, front);
    }
  }

  /** The same for `resolve` itself, with blanks, tabs and line ends around it. */
  lemma PrintedResolves(h: Host, vals: Value, before: string, e: Expr, after: string)
    requires WellFormed(e) && IsBlank(before) && IsBlank(after)
    ensures Resolve(h, vals, before + Print(e) + after) == Eval(h, vals, e)
  {
    var x := Print(e);
    PrintEnds(e);
    assert before + x + after == before + (x + after);
    TrimLeftPast(before, x + after);
    TrimRightPast(x, after);
    RoundTrip(h, vals, e);
  }

  lemma PrintedIs(h: Host, vals: Value, e: Expr)
    requires WellFormed(e)
    ensures Resolve(h, vals, Print(e)) == Eval(h, vals, e)
  {
    PrintEnds(e);
    TrimNothing(Print(e));
    RoundTrip(h, vals, e);
  }

  /** Negation, value by value. */
  lemma NegationIs(h: Host, vals: Value, e: Expr)
    requires WellFormed(e)
    ensures var v := Resolve(h, vals, Print(e));
            Resolve(h, vals, Print(Not(e))) ==
            Bool(v in {Undefined, Null, Bool(false), Number(Finite(0.0)), Number(NaN), Text("")})
  {
    PrintedIs(h, vals, e);
    PrintedIs(h, vals, Not(e));
  }

  lemma EvalNegated(h: Host, vals: Value, op: Comparison, left: Expr, right: Expr)
    ensures Eval(h, vals, Not(Equal(op, left, right))) == Eval(h, vals, Equal(op.(negated := !op.negated), left, right))
  {
  }

  /** Negating a comparison is comparing by the other symbol. */
  lemma NegatedComparison(h: Host, vals: Value, op: Comparison, left: Expr, right: Expr)
    requires WellFormed(left) && WellFormed(right)
    ensures Resolve(h, vals, Print(Not(Equal(op, left, right)))) == Resolve(h, vals, Print(Equal(op.(negated := !op.negated), left, right)))
  {
    EvalNegated(h, vals, op, left, right);
    PrintedIs(h, vals, Not(Equal(op, left, right)));
    PrintedIs(h, vals, Equal(op.(negated := !op.negated), left, right));
  }

  // ----- what is no expression -----

  /** Text no step of a path begins with: something else than a dot or a bracket, a dot without a name, or a
      bracket that is never closed. */
  predicate IsMalformed(rest: string) {
    && rest != "" && IsApart(rest)
    && match rest[0]
       case '.' => |rest| == 1 || !('a' <= rest[1] <= 'z' || 'A' <= rest[1] <= 'Z' || '0' <= rest[1] <= '9' || rest[1] in ['_', '$'])
       case '[' => ']' !in rest
       case _ => true
  }

  lemma {:induction false} NeverCloses(s: string, j: nat, d: nat)
    requires d > 0 && forall k :: j <= k < |s| ==> s[k] != ']'
    ensures CloseFrom(s, j, d).None?
    decreases |s| - j
  {
    if j < |s| { NeverCloses(s, j + 1, if s[j] == '[' then d + 1 else d); }
  }

  lemma NoPartAt(s: string, i: nat, rest: string)
    requires i < |s| && s[i..] == rest && IsMalformed(rest)
    ensures PartAt(s, i).None?
  {
    assert s[i] == rest[0];
    if rest[0] == '.' {
      assert s[i + 1..] == rest[1..];
      if |rest| > 1 { assert rest[1..][0] == rest[1]; }
    } else if rest[0] == '[' {
      forall k | i + 1 <= k < |s| ensures s[k] != ']' { assert s[k] == rest[k - i]; }
      NeverCloses(s, i + 1, 1);
    }
  }

  /** A path with such text behind it is undefined, whatever the path itself is worth. */
  lemma MalformedPathIsUndefined(h: Host, vals: Value, head: string, steps: seq<PathPart>, rest: string)
    requires IsIdent(head) && (forall p :: p in steps ==> WellFormedPart(p)) && IsMalformed(rest)
    ensures ResolvePath(h, vals, head + PrintSteps(steps) + rest) == Undefined
  {
    var s, n := head + PrintSteps(steps) + rest, |head| + |PrintSteps(steps)|;
    PathFollowed(h, vals, s, head, steps, rest, n);
    assert s[n..] == rest;
    NoPartAt(s, n, rest);
  }

  /** So is text that begins with no name, and blank text. */
  lemma NothingIsUndefined(h: Host, vals: Value, s: string, blank: string)
    requires s != "" && !('a' <= s[0] <= 'z' || 'A' <= s[0] <= 'Z' || s[0] in ['_', '$'])
    requires forall i :: 0 <= i < |blank| ==> IsSpace(blank[i])
    ensures ResolvePath(h, vals, s) == Undefined && Resolve(h, vals, blank) == Undefined
  {
    BlankTrims(blank);
  }

  lemma {:induction false} BlankTrims(blank: string)
    requires forall i :: 0 <= i < |blank| ==> IsSpace(blank[i])
    ensures Trim(blank) == ""
  {
    if blank != "" { BlankTrims(blank[1..]); }
  }
}
