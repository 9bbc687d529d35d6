/**
 * The generic expression emission loop `_tokenize` of liquid/lex.py and the
 * seven grammar configurations built on it.
 *
 * The loop walks the scanner's matches in order with a running line number
 * that starts at 1. An IDENTIFIER whose text is a keyword of the grammar is
 * re-kinded to the keyword, a STRING is emitted as its inner group, an OP
 * is looked up in the operators table, NEWLINE raises the line by one and
 * SKIP is dropped; every other match is emitted as it stands. An ILLEGAL
 * match, or an OP the table does not know, stops the run with a syntax
 * error on the running line. Tokens yielded before the error are kept in
 * the outcome, as a consumer of the generator would have seen them.
 */
module ExprLexer {
  import opened Tokens
  import opened Patterns
  import opened Rules

  /** The loop's variables: the running line, the tokens yielded so far and
      the error that ended the run, if any. */
  datatype LexState = LexState(line: int, tokens: seq<Token>, error: Option<SyntaxError>)

  const Start := LexState(1, [], None)

  /** The matches that stop the loop with a syntax error. */
  predicate Fatal(m: Match, ops: map<string, string>)
  {
    m.rule == Illegal || (m.rule == Op && m.text !in ops)
  }

  /** The error a fatal match raises. */
  function FatalReason(m: Match): Reason
  {
    if m.rule == Illegal then Unexpected(m.text) else UnknownOperator(m.text)
  }

  /** The matches that yield a token. */
  predicate Yields(m: Match, ops: map<string, string>)
  {
    m.rule != Newline && m.rule != Skip && !Fatal(m, ops)
  }

  /** The token a yielding match produces on line `line`. */
  function TokenOf(m: Match, line: int, keywords: set<string>, ops: map<string, string>): (t: Token)
    requires Yields(m, ops)
    ensures t.line == line
    ensures t.kind !in {Newline, Skip, Illegal, Op}
    ensures m.rule == Identifier ==> t.kind == (if m.text in keywords then Keyword(m.text) else Identifier)
    ensures m.rule != Identifier && m.rule != Op ==> t.kind == m.rule
    ensures m.rule == String ==> t.kind == String && t.value == m.inner
    ensures m.rule == Op ==> t.kind == Operator(ops[m.text]) && t.value == m.text
    ensures m.rule != String ==> t.value == m.text
  {
    if m.rule == Identifier && m.text in keywords then Token(line, Keyword(m.text), m.text)
    else if m.rule == String then Token(line, String, m.inner)
    else if m.rule == Op then Token(line, Operator(ops[m.text]), m.text)
    else Token(line, m.rule, m.text)
  }

  /** One pass of the loop body. */
  function Step(st: LexState, m: Match, keywords: set<string>, ops: map<string, string>): (r: LexState)
    ensures m.rule == Newline ==> r == st.(line := st.line + 1)
    ensures m.rule == Skip ==> r == st
    ensures Fatal(m, ops) ==> r == st.(error := Some(SyntaxError(st.line, FatalReason(m))))
    ensures Yields(m, ops) ==> r == st.(tokens := st.tokens + [TokenOf(m, st.line, keywords, ops)])
  {
    match m.rule
    case Newline => st.(line := st.line + 1)
    case Skip => st
    case Illegal => st.(error := Some(SyntaxError(st.line, Unexpected(m.text))))
    case Op =>
      if m.text in ops then st.(tokens := st.tokens + [Token(st.line, Operator(ops[m.text]), m.text)])
      else st.(error := Some(SyntaxError(st.line, UnknownOperator(m.text))))
    case _ =>
      var kind := if m.rule == Identifier && m.text in keywords then Keyword(m.text) else m.rule;
      var value := if m.rule == String then m.inner else m.text;
      st.(tokens := st.tokens + [Token(st.line, kind, value)])
  }

  /** The loop from state `st` over the remaining matches; it stops at the
      first error. */
  function Run(ms: seq<Match>, keywords: set<string>, ops: map<string, string>, st: LexState): LexState
    decreases |ms|
  {
    if ms == [] || st.error.Some? then st
    else Run(ms[1..], keywords, ops, Step(st, ms[0], keywords, ops))
  }

  /** What `_tokenize` produces for the matches `ms`. */
  function Lex(ms: seq<Match>, keywords: set<string>, ops: map<string, string>): LexState
  {
    Run(ms, keywords, ops, Start)
  }

  /** `_tokenize(source, rules, keywords)`: scan the source with the rule
      table, then run the emission loop over the matches. */
  method Tokenize(source: string, rules: seq<Rule>, keywords: set<string>, ops: map<string, string>)
    returns (tokens: seq<Token>, error: Option<SyntaxError>)
    ensures var r := Lex(Scan(rules, source, 0, Compiled(NoImports)), keywords, ops);
            tokens == r.tokens && error == r.error
  {
    tokens, error := Emit(Scan(rules, source, 0, Compiled(NoImports)), keywords, ops);
  }

  /** The `for` loop of `_tokenize` over the matches; each `raise` becomes
      a return with the error set. */
  method Emit(ms: seq<Match>, keywords: set<string>, ops: map<string, string>)
    returns (tokens: seq<Token>, error: Option<SyntaxError>)
    ensures tokens == Lex(ms, keywords, ops).tokens && error == Lex(ms, keywords, ops).error
  {
    var line := 1;
    tokens, error := [], None;
    for i := 0 to |ms|
      invariant error.None? && LexState(line, tokens, error) == Lex(ms[..i], keywords, ops)
    {
      LexPrefixStep(ms, i, keywords, ops);
      line, tokens, error := EmitMatch(ms[i], keywords, ops, line, tokens);
      assert LexState(line, tokens, error) == Lex(ms[..i + 1], keywords, ops);
      if error.Some? {
        LexStops(ms, i + 1, keywords, ops);
        return;
      }
    }
    assert ms[..|ms|] == ms;
  }

  /** One pass of the loop body for match `m`: the kind and value are
      adjusted, NEWLINE and SKIP `continue`, ILLEGAL and an unknown
      operator raise, and everything else is yielded on the running line. */
  method EmitMatch(m: Match, keywords: set<string>, ops: map<string, string>, line0: int, tokens0: seq<Token>)
    returns (line: int, tokens: seq<Token>, error: Option<SyntaxError>)
    ensures LexState(line, tokens, error) == Step(LexState(line0, tokens0, None), m, keywords, ops)
  {
    line, tokens, error := line0, tokens0, None;
    var kind, value := m.rule, m.text;
    if kind == Identifier && value in keywords {
      kind := Keyword(value);
    } else if kind == String {
      value := m.inner;
    } else if kind == Op {
      if value in ops {
        kind := Operator(ops[value]);
      } else {
        error := Some(SyntaxError(line, UnknownOperator(value)));
        return;
      }
    } else if kind == Newline {
      line := line + 1;
      return;
    } else if kind == Skip {
      return;
    } else if kind == Illegal {
      error := Some(SyntaxError(line, Unexpected(value)));
      return;
    }
    tokens := tokens + [Token(line, kind, value)];
    assert Token(line, kind, value) == TokenOf(m, line0, keywords, ops);
  }

  /** One of the `partial` configurations: the grammar picks the rule table
      and the keyword set. */
  method TokenizeGrammar(source: string, g: Grammar, ops: map<string, string>)
    returns (tokens: seq<Token>, error: Option<SyntaxError>)
    ensures var r := Lex(Scan(RulesOf(g), source, 0, Compiled(NoImports)), KeywordsOf(g), ops);
            tokens == r.tokens && error == r.error
  {
    tokens, error := Tokenize(source, RulesOf(g), KeywordsOf(g), ops);
  }

  // ---------------------------------------------------------------------
  // Properties of the loop

  /** Running one more match: nothing happens after an error, otherwise one
      more pass of the body. */
  lemma {:induction false} RunAppend(ms: seq<Match>, m: Match, keywords: set<string>, ops: map<string, string>, st: LexState)
    ensures var r := Run(ms, keywords, ops, st);
            Run(ms + [m], keywords, ops, st) == if r.error.Some? then r else Step(r, m, keywords, ops)
    decreases |ms|
  {
    if ms == [] {
      assert ms + [m] == [m];
      assert [m][1..] == [];
    } else if st.error.None? {
      assert (ms + [m])[1..] == ms[1..] + [m];
      RunAppend(ms[1..], m, keywords, ops, Step(st, ms[0], keywords, ops));
    }
  }

  /** The effect of the match after the prefix `ms` when `ms` ran without
      error, stated in terms of the prefix: the token it yields carries line
      1 + the number of NEWLINE matches before it. */
  lemma {:induction false} LexNext(ms: seq<Match>, m: Match, keywords: set<string>, ops: map<string, string>)
    requires Lex(ms, keywords, ops).error.None?
    ensures var before := Lex(ms, keywords, ops);
            var after := Lex(ms + [m], keywords, ops);
            var line := 1 + Count(ms, Newline);
            && (m.rule == Newline ==> after.line == line + 1 && after.tokens == before.tokens && after.error.None?)
            && (m.rule == Skip ==> after == before)
            && (Fatal(m, ops) ==> after.tokens == before.tokens && after.error == Some(SyntaxError(line, FatalReason(m))))
            && (Yields(m, ops) ==> after.tokens == before.tokens + [TokenOf(m, line, keywords, ops)] && after.error.None?)
  {
    LexAppend(ms, m, keywords, ops);
  }

  /** One more match after a prefix that ran without error: one pass of the
      body from the prefix's state, whose line is 1 + its NEWLINE matches. */
  lemma LexAppend(ms: seq<Match>, m: Match, keywords: set<string>, ops: map<string, string>)
    requires Lex(ms, keywords, ops).error.None?
    ensures Lex(ms + [m], keywords, ops) == Step(Lex(ms, keywords, ops), m, keywords, ops)
    ensures Lex(ms, keywords, ops).line == 1 + Count(ms, Newline)
  {
    RunAppend(ms, m, keywords, ops, Start);
    LexLine(ms, keywords, ops);
  }

  /** Line numbering starts at 1 and only NEWLINE raises it, by one: after a
      run without error the line is 1 + the number of NEWLINE matches; an
      error carries the running line. */
  lemma {:induction false} LexLine(ms: seq<Match>, keywords: set<string>, ops: map<string, string>)
    ensures var r := Lex(ms, keywords, ops);
            && 1 <= r.line <= 1 + Count(ms, Newline)
            && (r.error.None? ==> r.line == 1 + Count(ms, Newline))
            && (r.error.Some? ==> r.error.value.line == r.line)
    decreases |ms|
  {
    if ms != [] {
      var pre, m := ms[..|ms| - 1], ms[|ms| - 1];
      assert ms == pre + [m];
      LexLine(pre, keywords, ops);
      RunAppend(pre, m, keywords, ops, Start);
      CountAppend(pre, m, Newline);
    }
  }

  /** Emitted lines never decrease and lie between 1 and the running line. */
  lemma {:induction false} LexLinesOrdered(ms: seq<Match>, keywords: set<string>, ops: map<string, string>)
    ensures var r := Lex(ms, keywords, ops);
            LinesOrdered(r.tokens) && LinesWithin(r.tokens, 1, r.line)
    decreases |ms|
  {
    if ms != [] {
      var pre, m := ms[..|ms| - 1], ms[|ms| - 1];
      assert ms == pre + [m];
      LexLinesOrdered(pre, keywords, ops);
      LexLine(pre, keywords, ops);
      RunAppend(pre, m, keywords, ops, Start);
      var r := Lex(pre, keywords, ops);
      if r.error.None? && Yields(m, ops) {
        AppendOrdered(r.tokens, [TokenOf(m, r.line, keywords, ops)], 1, r.line);
      }
    }
  }

  /** Every emitted token is of an emitting kind; a keyword token is spelled
      by its own value, which is a keyword of the grammar, and an IDENTIFIER
      token is never a keyword. */
  predicate CleanToken(t: Token, keywords: set<string>)
  {
    && t.kind !in {Newline, Skip, Illegal, Op}
    && (t.kind.Keyword? ==> t.kind.word == t.value && t.value in keywords)
    && (t.kind == Identifier ==> t.value !in keywords)
  }

  lemma {:induction false} LexTokensClean(ms: seq<Match>, keywords: set<string>, ops: map<string, string>)
    requires forall j :: 0 <= j < |ms| ==> RuleKind(ms[j].rule)
    ensures forall t :: t in Lex(ms, keywords, ops).tokens ==> CleanToken(t, keywords)
    decreases |ms|
  {
    if ms != [] {
      var pre, m := ms[..|ms| - 1], ms[|ms| - 1];
      assert ms == pre + [m];
      LexTokensClean(pre, keywords, ops);
      RunAppend(pre, m, keywords, ops, Start);
    }
  }

  /** The run over one more match of `ms`, when the run before it did not
      fail. */
  lemma LexPrefixStep(ms: seq<Match>, i: nat, keywords: set<string>, ops: map<string, string>)
    requires i < |ms| && Lex(ms[..i], keywords, ops).error.None?
    ensures Lex(ms[..i + 1], keywords, ops) == Step(Lex(ms[..i], keywords, ops), ms[i], keywords, ops)
  {
    assert ms[..i + 1] == ms[..i] + [ms[i]];
    RunAppend(ms[..i], ms[i], keywords, ops, Start);
  }

  /** Once a prefix fails, the rest of the matches change nothing. */
  lemma LexStops(ms: seq<Match>, i: nat, keywords: set<string>, ops: map<string, string>)
    requires i <= |ms| && Lex(ms[..i], keywords, ops).error.Some?
    ensures Lex(ms, keywords, ops) == Lex(ms[..i], keywords, ops)
  {
    assert ms == ms[..i] + ms[i..];
    RunConcat(ms[..i], ms[i..], keywords, ops, Start);
    assert Run(ms[i..], keywords, ops, Lex(ms[..i], keywords, ops)) == Lex(ms[..i], keywords, ops);
  }

  /** Running two stretches of matches one after the other. */
  lemma {:induction false} RunConcat(a: seq<Match>, b: seq<Match>, keywords: set<string>, ops: map<string, string>, st: LexState)
    ensures Run(a + b, keywords, ops, st) == Run(b, keywords, ops, Run(a, keywords, ops, st))
    decreases |a|
  {
    if a == [] {
      assert a + b == b;
    } else if st.error.None? {
      assert (a + b)[1..] == a[1..] + b;
      RunConcat(a[1..], b, keywords, ops, Step(st, a[0], keywords, ops));
    } else {
      assert Run(b, keywords, ops, st) == st;
    }
  }

  /** A run fails exactly when some match is fatal. */
  lemma {:induction false} LexFailsIffFatal(ms: seq<Match>, keywords: set<string>, ops: map<string, string>)
    ensures Lex(ms, keywords, ops).error.None? <==> forall j :: 0 <= j < |ms| ==> !Fatal(ms[j], ops)
    decreases |ms|
  {
    if ms != [] {
      var pre, m := ms[..|ms| - 1], ms[|ms| - 1];
      assert ms == pre + [m];
      LexFailsIffFatal(pre, keywords, ops);
      RunAppend(pre, m, keywords, ops, Start);
      if Lex(ms, keywords, ops).error.None? {
        forall j | 0 <= j < |ms| ensures !Fatal(ms[j], ops) {
          if j < |pre| { assert pre[j] == ms[j]; }
        }
      } else if Lex(pre, keywords, ops).error.Some? {
        var j :| 0 <= j < |pre| && Fatal(pre[j], ops);
        assert ms[j] == pre[j];
      } else {
        forall j | 0 <= j < |pre| ensures !Fatal(ms[j], ops) { assert ms[j] == pre[j]; }
      }
    }
  }

  /** A run fails at its first fatal match, on line 1 + the NEWLINE matches
      before it, and keeps the tokens that the matches before it yielded. */
  lemma {:induction false} LexFailsAtFirstFatal(ms: seq<Match>, j: nat, keywords: set<string>, ops: map<string, string>)
    requires j < |ms| && Fatal(ms[j], ops)
    requires forall k :: 0 <= k < j ==> !Fatal(ms[k], ops)
    ensures Lex(ms, keywords, ops).error == Some(SyntaxError(1 + Count(ms[..j], Newline), FatalReason(ms[j])))
    ensures Lex(ms, keywords, ops).tokens == Lex(ms[..j], keywords, ops).tokens
  {
    var pre := ms[..j];
    LexFailsIffFatal(pre, keywords, ops);
    LexLine(pre, keywords, ops);
    RunAppend(pre, ms[j], keywords, ops, Start);
    var r := Lex(pre + [ms[j]], keywords, ops);
    assert r.error.Some?;
    assert ms == (pre + [ms[j]]) + ms[j + 1..];
    RunConcat(pre + [ms[j]], ms[j + 1..], keywords, ops, Start);
    assert Run(ms[j + 1..], keywords, ops, r) == r;
  }

  /** A successful run yields one token per match that is neither NEWLINE
      nor SKIP. */
  lemma {:induction false} LexTokenCount(ms: seq<Match>, keywords: set<string>, ops: map<string, string>)
    requires Lex(ms, keywords, ops).error.None?
    ensures |Lex(ms, keywords, ops).tokens| == |ms| - Count(ms, Newline) - Count(ms, Skip)
    decreases |ms|
  {
    if ms != [] {
      var pre, m := ms[..|ms| - 1], ms[|ms| - 1];
      assert ms == pre + [m];
      RunAppend(pre, m, keywords, ops, Start);
      LexTokenCount(pre, keywords, ops);
      CountAppend(pre, m, Newline);
      CountAppend(pre, m, Skip);
    }
  }

  /** For each of the seven configurations: no emitted token is NEWLINE,
      SKIP, ILLEGAL or OP, keyword tokens are the grammar's keywords spelled
      by their own value, and IDENTIFIER tokens are not keywords. */
  lemma GrammarTokensClean(source: string, g: Grammar, ops: map<string, string>)
    ensures forall t :: t in Lex(Scan(RulesOf(g), source, 0, Compiled(NoImports)), KeywordsOf(g), ops).tokens
              ==> CleanToken(t, KeywordsOf(g))
  {
    var rules := RulesOf(g);
    var ms := Scan(rules, source, 0, Compiled(NoImports));
    CompiledSound(NoImports);
    ScanShaped(rules, source, 0, Compiled(NoImports));
    LexTokensClean(ms, KeywordsOf(g), ops);
  }
}
