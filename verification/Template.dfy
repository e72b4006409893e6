/** The expression resolver of the documentation site's templates: a string-level parser and
    evaluator that finds its way by counting brackets. */
module Template {

  import opened Wrappers

  // ----- values -----

  datatype Numeric = NaN | Infinite(negative: bool) | Finite(value: real)

  datatype Value =
    | Undefined
    | Null
    | Bool(b: bool)
    | Number(n: Numeric)
    | Text(s: string)
    | Object(id: int)

  /** What the language gives the resolver: property access on a value that is neither null nor
      undefined, loose equality, and the reading of a decimal numeral. */
  datatype Host = Host(get: (Value, Value) -> Value, looseEquals: (Value, Value) -> bool, number: string -> Numeric)

  predicate StrictEquals(a: Value, b: Value) {
    a == b && a != Number(NaN)
  }

  predicate Truthy(v: Value) {
    match v
    case Undefined => false
    case Null => false
    case Bool(b) => b
    case Number(NaN) => false
    case Number(Infinite(_)) => true
    case Number(Finite(r)) => r != 0.0
    case Text(s) => s != ""
    case Object(_) => true
  }

  /** `cur == null ? void 0 : cur[key]`. */
  function Access(h: Host, cur: Value, key: Value): Value {
    if cur == Undefined || cur == Null then Undefined else h.get(cur, key)
  }

  // ----- characters and prefixes -----

  predicate IsDigit(c: char) {
    '0' <= c <= '9'
  }

  predicate IsIdentStart(c: char) {
    'A' <= c <= 'Z' || 'a' <= c <= 'z' || c == '_' || c == '$'
  }

  predicate IsIdentPart(c: char) {
    IsIdentStart(c) || IsDigit(c)
  }

  /** What `String.prototype.trim` removes. */
  predicate IsSpace(c: char) {
    || '\t' <= c <= '\r' || c == ' ' || c == '\U{00A0}' || c == '\U{1680}' || '\U{2000}' <= c <= '\U{200A}'
    || c == '\U{2028}' || c == '\U{2029}' || c == '\U{202F}' || c == '\U{205F}' || c == '\U{3000}' || c == '\U{FEFF}'
  }

  function TrimLeft(s: string): (r: string)
    ensures |r| <= |s|
    ensures r != "" ==> !IsSpace(r[0])
  {
    if s != "" && IsSpace(s[0]) then TrimLeft(s[1..]) else s
  }

  function TrimRight(s: string): (r: string)
    ensures |r| <= |s|
    ensures r != "" ==> !IsSpace(r[|r| - 1])
  {
    if s != "" && IsSpace(s[|s| - 1]) then TrimRight(s[..|s| - 1]) else s
  }

  function Trim(s: string): (r: string)
    ensures |r| <= |s|
  {
    TrimRight(TrimLeft(s))
  }

  function PartsPrefix(s: string): (n: nat)
    ensures n <= |s|
  {
    if s != "" && IsIdentPart(s[0]) then 1 + PartsPrefix(s[1..]) else 0
  }

  /** The length of the match of `IDENT_RE`, 0 if there is none. */
  function IdentPrefix(s: string): (n: nat)
    ensures n <= |s|
  {
    if s != "" && IsIdentStart(s[0]) then 1 + PartsPrefix(s[1..]) else 0
  }

  /** The length of the match of `/^\d+/`. */
  function DigitsPrefix(s: string): (n: nat)
    ensures n <= |s|
  {
    if s != "" && IsDigit(s[0]) then 1 + DigitsPrefix(s[1..]) else 0
  }

  /** `NUMBER_RE`. */
  predicate IsNumber(s: string) {
    var t := if s != "" && s[0] == '-' then s[1..] else s;
    var d := DigitsPrefix(t);
    && d > 0
    && (d == |t| || (t[d] == '.' && d + 1 < |t| && d + 1 + DigitsPrefix(t[d + 1..]) == |t|))
  }

  // ----- the scanners -----

  /** The loop of `parensWrapWhole` from position `i` at a depth. */
  predicate WrapsFrom(expr: string, i: nat, depth: int)
    decreases |expr| - i
  {
    if i + 1 >= |expr| then true
    else if expr[i] == '(' then WrapsFrom(expr, i + 1, depth + 1)
    else if expr[i] == ')' then depth - 1 != 0 && WrapsFrom(expr, i + 1, depth - 1)
    else WrapsFrom(expr, i + 1, depth)
  }

  datatype Operator = Operator(index: nat, symbol: string)

  /** Position `i` starts an equality operator, were it at depth 0. */
  predicate StartsEquality(expr: string, i: nat)
    requires i < |expr|
  {
    && (expr[i] == '=' || expr[i] == '!') && i + 1 < |expr| && expr[i + 1] == '='
    && !(i > 0 && (expr[i - 1] == '=' || expr[i - 1] == '!'))
    && Trim(expr[..i]) != ""
  }

  /** The loop of `findTopLevelEquality` from position `i` at a depth. */
  function EqualityFrom(expr: string, i: nat, depth: int): (r: Option<Operator>)
    ensures r.Some? ==> r.value.index + |r.value.symbol| <= |expr| && 2 <= |r.value.symbol|
    decreases |expr| - i
  {
    if i >= |expr| then None
    else if expr[i] == '[' || expr[i] == '(' then EqualityFrom(expr, i + 1, depth + 1)
    else if expr[i] == ']' || expr[i] == ')' then EqualityFrom(expr, i + 1, depth - 1)
    else if depth == 0 && StartsEquality(expr, i) then
      Some(Operator(i, if i + 2 < |expr| && expr[i + 2] == '=' then [expr[i]] + "==" else [expr[i]] + "="))
    else EqualityFrom(expr, i + 1, depth)
  }

  /** The inner loop of `resolvePath`: the position of the `]` that closes at this depth. */
  function CloseFrom(expr: string, j: nat, depth: nat): (r: Option<nat>)
    requires depth > 0
    ensures r.Some? ==> j <= r.value < |expr|
    decreases |expr| - j
  {
    if j >= |expr| then None
    else if expr[j] == '[' then CloseFrom(expr, j + 1, depth + 1)
    else if expr[j] == ']' then (if depth == 1 then Some(j) else CloseFrom(expr, j + 1, depth - 1))
    else CloseFrom(expr, j + 1, depth)
  }

  // ----- the resolver -----

  /** `resolve`. The recursion ends: every nested call is on a strictly shorter string. */
  function Resolve(h: Host, vals: Value, src: string): Value
    decreases |src|, 3
  {
    ResolveTrimmed(h, vals, Trim(src))
  }

  function ResolveTrimmed(h: Host, vals: Value, expr: string): Value
    decreases |expr|, 2
  {
    if expr == "" then Undefined
    else if expr[0] == '(' && expr[|expr| - 1] == ')' && WrapsFrom(expr, 0, 0) then
      Resolve(h, vals, expr[1..|expr| - 1])
    else
      var eq := EqualityFrom(expr, 0, 0);
      if eq.Some? then
        var l := Resolve(h, vals, expr[..eq.value.index]);
        var r := Resolve(h, vals, expr[eq.value.index + |eq.value.symbol|..]);
        Bool(Compare(h, eq.value.symbol, l, r))
      else if expr[0] == '!' then Bool(!Truthy(Resolve(h, vals, expr[1..])))
      else match Literal(h, expr)
        case Some(v) => v
        case None => ResolvePath(h, vals, expr)
  }

  function Literal(h: Host, expr: string): Option<Value> {
    if expr == "true" then Some(Bool(true))
    else if expr == "false" then Some(Bool(false))
    else if expr == "null" then Some(Null)
    else if expr == "undefined" then Some(Undefined)
    else if IsNumber(expr) then Some(Number(h.number(expr)))
    else if |expr| >= 2 && (expr[0] == '"' || expr[0] == '\'') && expr[|expr| - 1] == expr[0] then
      Some(Text(expr[1..|expr| - 1]))
    else None
  }

  predicate Compare(h: Host, symbol: string, l: Value, r: Value) {
    if symbol == "===" then StrictEquals(l, r)
    else if symbol == "!==" then !StrictEquals(l, r)
    else if symbol == "==" then h.looseEquals(l, r)
    else !h.looseEquals(l, r)
  }

  /** `resolvePath`. */
  function ResolvePath(h: Host, vals: Value, expr: string): Value
    decreases |expr|, 1
  {
    var n := IdentPrefix(expr);
    if n == 0 then Undefined else PathFrom(h, vals, expr, n, Access(h, vals, Text(expr[..n])))
  }

  /** The length of the field name at position `i`: an identifier, or else digits. */
  function FieldLength(expr: string, i: nat): (m: nat)
    requires i <= |expr|
    ensures i + m <= |expr|
  {
    if IdentPrefix(expr[i..]) > 0 then IdentPrefix(expr[i..]) else DigitsPrefix(expr[i..])
  }

  datatype Cursor = Cursor(index: nat, value: Value)

  /** A part of a path as it stands in the text: the name behind a dot, or what an index holds. */
  datatype Part = Name(name: string) | Inner(text: string)

  function PartLength(p: Part): nat {
    match p
    case Name(name) => 1 + |name|
    case Inner(text) => 2 + |text|
  }

  /** The part that begins at `i`; `None` if neither kind is well formed there. */
  function PartAt(expr: string, i: nat): (r: Option<Part>)
    requires i < |expr|
    ensures r.Some? ==> i + PartLength(r.value) <= |expr|
  {
    if expr[i] == '.' then
      var m := FieldLength(expr, i + 1);
      if m == 0 then None else Some(Name(expr[i + 1..i + 1 + m]))
    else if expr[i] == '[' then
      match CloseFrom(expr, i + 1, 1)
      case None => None
      case Some(j) => Some(Inner(expr[i + 1..j]))
    else None
  }

  /** The key a part stands for. */
  function Meaning(h: Host, vals: Value, p: Part): Value
    decreases PartLength(p) - 1, 3
  {
    match p
    case Name(name) => Text(name)
    case Inner(text) => Resolve(h, vals, text)
  }

  /** One step of a path. */
  function PathStep(h: Host, vals: Value, expr: string, i: nat, cur: Value): (r: Option<Cursor>)
    requires i < |expr|
    ensures r.Some? ==> i < r.value.index <= |expr|
    decreases |expr|, 0, 0
  {
    match PartAt(expr, i)
    case None => None
    case Some(p) => Some(Cursor(i + PartLength(p), Access(h, cur, Meaning(h, vals, p))))
  }

  function PathFrom(h: Host, vals: Value, expr: string, i: nat, cur: Value): Value
    decreases |expr|, 0, |expr| - i
  {
    if i >= |expr| then cur
    else match PathStep(h, vals, expr, i, cur)
      case None => Undefined
      case Some(next) => PathFrom(h, vals, expr, next.index, next.value)
  }

  // ----- the code as it runs -----

  method ParensWrapWhole(expr: string) returns (r: bool)
    ensures r == WrapsFrom(expr, 0, 0)
  {
    var depth := 0;
    var i := 0;
    while i < |expr| - 1
      invariant WrapsFrom(expr, 0, 0) == WrapsFrom(expr, i, depth)
    {
      if expr[i] == '(' {
        depth := depth + 1;
      } else if expr[i] == ')' {
        depth := depth - 1;
        if depth == 0 {
          return false;
        }
      }
      i := i + 1;
    }
    return true;
  }

  method FindTopLevelEquality(expr: string) returns (r: Option<Operator>)
    ensures r == EqualityFrom(expr, 0, 0)
  {
    var depth := 0;
    for i := 0 to |expr|
      invariant EqualityFrom(expr, 0, 0) == EqualityFrom(expr, i, depth)
    {
      var c := expr[i];
      if c == '[' || c == '(' {
        depth := depth + 1;
      } else if c == ']' || c == ')' {
        depth := depth - 1;
      } else if depth == 0 && (c == '=' || c == '!') && i + 1 < |expr| && expr[i + 1] == '=' {
        if i > 0 && (expr[i - 1] == '=' || expr[i - 1] == '!') {
          continue;
        }
        if Trim(expr[..i]) == "" {
          continue;
        }
        var op := if i + 2 < |expr| && expr[i + 2] == '=' then [c] + "==" else [c] + "=";
        return Some(Operator(i, op));
      }
    }
    return None;
  }

  /** The inner loop of `resolvePath`. */
  method FindClose(expr: string, from: nat) returns (r: Option<nat>)
    ensures r == CloseFrom(expr, from, 1)
  {
    var depth := 1;
    var j := from;
    while j < |expr|
      invariant depth > 0 && CloseFrom(expr, from, 1) == CloseFrom(expr, j, depth)
    {
      if expr[j] == '[' {
        depth := depth + 1;
      } else if expr[j] == ']' {
        depth := depth - 1;
        if depth == 0 {
          return Some(j);
        }
      }
      j := j + 1;
    }
    return None;
  }

  method ResolveExpression(h: Host, vals: Value, src: string) returns (r: Value)
    ensures r == Resolve(h, vals, src)
    decreases |src|, 2
  {
    var expr := Trim(src);
    if expr == "" {
      return Undefined;
    }
    if expr[0] == '(' && expr[|expr| - 1] == ')' {
      var wraps := ParensWrapWhole(expr);
      if wraps {
        r := ResolveExpression(h, vals, expr[1..|expr| - 1]);
        return;
      }
    }
    r := ResolveUnwrapped(h, vals, expr);
  }

  /** The rest of `resolve`, for a trimmed expression no parentheses wrap. */
  method ResolveUnwrapped(h: Host, vals: Value, expr: string) returns (r: Value)
    requires expr != "" && !(expr[0] == '(' && expr[|expr| - 1] == ')' && WrapsFrom(expr, 0, 0))
    ensures r == ResolveTrimmed(h, vals, expr)
    decreases |expr|, 1
  {
    var eq := FindTopLevelEquality(expr);
    if eq.Some? {
      var lv := ResolveExpression(h, vals, expr[..eq.value.index]);
      var rv := ResolveExpression(h, vals, expr[eq.value.index + |eq.value.symbol|..]);
      return Bool(Compare(h, eq.value.symbol, lv, rv));
    }
    if expr[0] == '!' {
      var v := ResolveExpression(h, vals, expr[1..]);
      return Bool(!Truthy(v));
    }
    var literal := Literal(h, expr);
    if literal.Some? {
      return literal.value;
    }
    r := ResolvePathExpression(h, vals, expr);
  }

  method ResolvePathExpression(h: Host, vals: Value, expr: string) returns (r: Value)
    ensures r == ResolvePath(h, vals, expr)
    decreases |expr|, 0, 2
  {
    var head := IdentPrefix(expr);
    if head == 0 {
      return Undefined;
    }
    var cur := Access(h, vals, Text(expr[..head]));
    var i := head;
    while i < |expr|
      invariant ResolvePath(h, vals, expr) == PathFrom(h, vals, expr, i, cur)
      decreases |expr| - i
    {
      var next := TakeStep(h, vals, expr, i, cur);
      if next.None? {
        return Undefined;
      }
      i, cur := next.value.index, next.value.value;
    }
    return cur;
  }

  /** The body of the loop of `resolvePath`. */
  method TakeStep(h: Host, vals: Value, expr: string, i: nat, cur: Value) returns (r: Option<Cursor>)
    requires i < |expr|
    ensures r == PathStep(h, vals, expr, i, cur)
    decreases |expr|, 0, 1
  {
    if expr[i] == '.' {
      var m := FieldLength(expr, i + 1);
      if m == 0 {
        return None;
      }
      return Some(Cursor(i + 1 + m, Access(h, cur, Text(expr[i + 1..i + 1 + m]))));
    }
    if expr[i] != '[' {
      return None;
    }
    r := TakeIndex(h, vals, expr, i, cur);
  }

  method TakeIndex(h: Host, vals: Value, expr: string, i: nat, cur: Value) returns (r: Option<Cursor>)
    requires i < |expr| && expr[i] == '['
    ensures r == PathStep(h, vals, expr, i, cur)
    decreases |expr|, 0, 0
  {
    var close := FindClose(expr, i + 1);
    if close.None? {
      return None;
    }
    assert PartAt(expr, i) == Some(Inner(expr[i + 1..close.value]));
    var key := ResolveExpression(h, vals, expr[i + 1..close.value]);
    return Some(Cursor(close.value + 1, Access(h, cur, key)));
  }
}
