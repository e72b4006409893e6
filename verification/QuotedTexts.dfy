/** Quotes do not protect a text from the scan for an operator: which quoted texts read back as themselves. */
module QuotedTexts {
  import opened Wrappers
  import opened Template
  import opened TemplateLaws

  lemma QuotedScannedIff(h: Host, vals: Value, quote: char, body: string)
    requires quote in ['"', '\'']
    ensures var s := [quote] + body + [quote];
            Resolve(h, vals, s) == Text(body) <==> EqualityFrom(s, 0, 0).None?
  {
    var s := [quote] + body + [quote];
    assert s[0] == quote && s[|s| - 1] == quote && s[1..|s| - 1] == body;
    TrimNothing(s);
    if IsNumber(s) { NumberChars(s); }
    KeywordLetters(s);
  }

  function Change(c: char): int {
    if c == '[' || c == '(' then 1 else if c == ']' || c == ')' then -1 else 0
  }

  /** How many more brackets open than close between two positions. */
  function Net(s: string, i: nat, j: nat): int
    requires i <= j <= |s|
    decreases j - i
  {
    if i == j then 0 else Change(s[i]) + Net(s, i + 1, j)
  }

  /** An equality operator begins at `j`: not the tail of a longer one, and with more than blanks before it. */
  predicate StandsAt(s: string, j: nat) {
    && j + 1 < |s| && s[j] in ['=', '!'] && s[j + 1] == '=' && !(j > 0 && s[j - 1] in ['=', '!'])
    && exists m :: 0 <= m < j && !IsSpace(s[m])
  }

  lemma {:induction false} TrimLeftKeeps(s: string)
    ensures TrimLeft(s) == "" <==> forall m :: 0 <= m < |s| ==> IsSpace(s[m])
  {
    if s != "" && IsSpace(s[0]) {
      TrimLeftKeeps(s[1..]);
      assert forall m :: 1 <= m < |s| ==> s[m] == s[1..][m - 1];
    }
  }

  /** Trimming leaves nothing exactly of blanks. */
  lemma TrimIsEmptyIff(s: string)
    ensures Trim(s) == "" <==> forall m :: 0 <= m < |s| ==> IsSpace(s[m])
  {
    TrimLeftKeeps(s);
    if TrimLeft(s) != "" { TrimRightKeeps(TrimLeft(s)); }
  }

  lemma StartsIff(s: string, j: nat)
    requires j < |s|
    ensures StartsEquality(s, j) <==> StandsAt(s, j)
  {
    TrimIsEmptyIff(s[..j]);
    assert forall m :: 0 <= m < j ==> s[..j][m] == s[m];
  }

  predicate OperatorAt(s: string, i: nat, d: int, j: nat) {
    i <= j < |s| && StandsAt(s, j) && d + Net(s, i, j) == 0
  }

  ghost predicate HasOperator(s: string, i: nat, d: int) {
    exists j: nat :: OperatorAt(s, i, d, j)
  }

  /** The scanner finds an operator exactly if one stands where no bracket is left open. */
  lemma {:induction false} EqualityFoundIff(s: string, i: nat, d: int)
    requires i <= |s|
    ensures EqualityFrom(s, i, d).Some? <==> HasOperator(s, i, d)
    decreases |s| - i
  {
    if i < |s| {
      var next := d + Change(s[i]);
      StartsIff(s, i);
      EqualityFoundIff(s, i + 1, next);
      OperatorHereOrLater(s, i, d, i + 1, next);
    }
  }

  lemma OperatorHereOrLater(s: string, i: nat, d: int, k: nat, next: int)
    requires i < |s| && k == i + 1 && next == d + Change(s[i])
    ensures HasOperator(s, i, d) <==> OperatorAt(s, i, d, i) || HasOperator(s, k, next)
  {
    if j: nat :| OperatorAt(s, i, d, j) {
      assert j == i || OperatorAt(s, k, next, j);
    }
    if j: nat :| OperatorAt(s, k, next, j) {
      assert OperatorAt(s, i, d, j);
    }
  }

  /** And what it finds is the first, with its whole symbol. */
  lemma {:induction false} EqualityIsFirst(s: string, i: nat, d: int)
    requires i <= |s| && EqualityFrom(s, i, d).Some?
    ensures var op := EqualityFrom(s, i, d).value;
            && OperatorAt(s, i, d, op.index)
            && (forall j: nat :: OperatorAt(s, i, d, j) ==> op.index <= j)
            && op.symbol == if op.index + 2 < |s| && s[op.index + 2] == '=' then s[op.index..op.index + 3] else s[op.index..op.index + 2]
    decreases |s| - i
  {
    var next, op := d + Change(s[i]), EqualityFrom(s, i, d).value;
    StartsIff(s, i);
    if op.index > i || !OperatorAt(s, i, d, i) {
      EqualityIsFirst(s, i + 1, next);
      forall j: nat | OperatorAt(s, i, d, j) ensures op.index <= j {
        LaterOperator(s, i, d, i + 1, next, j);
      }
      LaterOperator(s, i, d, i + 1, next, op.index);
    }
  }

  lemma LaterOperator(s: string, i: nat, d: int, k: nat, next: int, j: nat)
    requires i < |s| && k == i + 1 && next == d + Change(s[i])
    ensures OperatorAt(s, i, d, j) <==> (j == i && OperatorAt(s, i, d, i)) || OperatorAt(s, k, next, j)
  {
  }

  /** In the text itself: an equality operator, not the tail of a longer one, with as many brackets opened as
      closed before it. */
  predicate Exposed(body: string, k: nat) {
    && k + 1 < |body| && body[k] in ['=', '!'] && body[k + 1] == '='
    && !(k > 0 && body[k - 1] in ['=', '!'])
    && Net(body, 0, k) == 0
  }

  lemma {:induction false} NetShifted(quote: char, body: string, i: nat, j: nat)
    requires i <= j <= |body|
    ensures Net([quote] + body + [quote], i + 1, j + 1) == Net(body, i, j)
    decreases j - i
  {
    var s := [quote] + body + [quote];
    if i < j {
      assert s[i + 1] == body[i];
      NetShifted(quote, body, i + 1, j);
    }
  }

  lemma {:induction false} TrimRightKeeps(s: string)
    requires s != "" && !IsSpace(s[0])
    ensures TrimRight(s) != ""
  {
    if |s| > 1 && IsSpace(s[|s| - 1]) { TrimRightKeeps(s[..|s| - 1]); }
  }

  lemma ExposedIff(quote: char, body: string, k: nat)
    requires quote in ['"', '\'']
    ensures var s := [quote] + body + [quote]; OperatorAt(s, 0, 0, k + 1) <==> Exposed(body, k)
  {
    var s := [quote] + body + [quote];
    if k < |body| {
      assert s[k + 1] == body[k] && s[0] == quote;
      assert s[k + 2] == if k + 1 < |body| then body[k + 1] else quote;
      assert s[k] == if k > 0 then body[k - 1] else quote;
      NetShifted(quote, body, 0, k);
    }
  }

  lemma ExposedExists(quote: char, body: string)
    requires quote in ['"', '\'']
    ensures HasOperator([quote] + body + [quote], 0, 0) <==> exists k: nat :: Exposed(body, k)
  {
    var s := [quote] + body + [quote];
    forall k: nat ensures OperatorAt(s, 0, 0, k + 1) <==> Exposed(body, k) {
      ExposedIff(quote, body, k);
    }
    if j: nat :| OperatorAt(s, 0, 0, j) {
      assert s[0] == quote;
      assert Exposed(body, j - 1) by { ExposedIff(quote, body, j - 1); }
    }
    if k: nat :| Exposed(body, k) {
      assert OperatorAt(s, 0, 0, k + 1);
    }
  }

  /** Quotes do not protect: a quoted text reads back as itself exactly when no equality operator stands in it
      outside brackets. Otherwise it is split at the first that does and yields a boolean. */
  lemma QuotedResolvesIff(h: Host, vals: Value, quote: char, body: string)
    requires quote in ['"', '\'']
    ensures Resolve(h, vals, [quote] + body + [quote]) == Text(body) <==> forall k: nat :: !Exposed(body, k)
  {
    QuotedScannedIff(h, vals, quote, body);
    EqualityFoundIff([quote] + body + [quote], 0, 0);
    ExposedExists(quote, body);
  }

  lemma FirstEqualityInside(s: string)
    requires s == "'a==b'"
    ensures EqualityFrom(s, 0, 0) == Some(Operator(2, "=="))
  {
    assert s[0] == '\'' && s[1] == 'a' && s[2] == '=' && s[3] == '=' && s[4] == 'b';
    assert s[..2] == "'a";
    TrimNothing("'a");
    assert [s[2]] + "=" == "==";
    assert EqualityFrom(s, 2, 0) == Some(Operator(2, "=="));
    assert EqualityFrom(s, 1, 0) == EqualityFrom(s, 2, 0);
  }

  /** The text `a==b` in quotes is compared instead: what is left of the operator with what is right of
      it, a quote on either. */
  lemma QuotedEqualitySplits(h: Host, vals: Value)
    ensures Resolve(h, vals, "'a==b'") == Bool(Compare(h, "==", Resolve(h, vals, "'a"), Resolve(h, vals, "b'")))
    ensures Resolve(h, vals, "'a==b'") != Text("a==b")
  {
    var s := "'a==b'";
    TrimNothing(s);
    FirstEqualityInside(s);
    OperatorSplits(h, vals, s, Operator(2, "=="));
    assert s[..2] == "'a" && s[4..] == "b'";
  }
}
