/**
 * The loop-expression lexer `tokenize` of liquid/expressions/loop/lex.py.
 *
 * It runs over the matches of its own rule table with a running line that
 * starts at the caller's `line_num` (1 when the caller gives none). An
 * IDENTIFIER that is one of the loop keywords is re-kinded to the keyword,
 * an IDENTINDEX is emitted as its index group, an IDENTSTRING becomes an
 * IDENTIFIER whose value is the quoted name, NEWLINE raises the line by one
 * and SKIP is dropped. Every emitted match first adds the newlines of its
 * own text to the running line, so the token carries the line after its
 * own newlines. ILLEGAL stops the run with a syntax error on the running
 * line.
 */
module LoopLexer {
  import opened Tokens
  import opened Patterns
  import opened Rules

  /** The keywords of liquid/expressions/loop/lex.py. */
  const Keywords: set<string> := {"in", "offset", "limit", "reversed", "cols", "continue"}

  datatype LoopState = LoopState(line: int, tokens: seq<Token>, error: Option<SyntaxError>)

  /** The matches that yield a token. */
  predicate Yields(m: Match)
  {
    m.rule != Newline && m.rule != Skip && m.rule != Illegal
  }

  /** How far a match moves the running line: one for NEWLINE, the newlines
      of its text for a yielding match, nothing otherwise. */
  function Advance(m: Match): nat
  {
    if m.rule == Newline then 1 else if Yields(m) then Newlines(m.text) else 0
  }

  /** Total advance of a run of matches. */
  function AdvanceAll(ms: seq<Match>): nat
  {
    if ms == [] then 0 else Advance(ms[0]) + AdvanceAll(ms[1..])
  }

  lemma {:induction false} AdvanceAllAppend(ms: seq<Match>, m: Match)
    ensures AdvanceAll(ms + [m]) == AdvanceAll(ms) + Advance(m)
  {
    if ms == [] {
      assert ms + [m] == [m];
      assert [m][1..] == [];
    } else {
      assert (ms + [m])[1..] == ms[1..] + [m];
      AdvanceAllAppend(ms[1..], m);
    }
  }

  /** The token a yielding match produces when the running line before it
      is `line`: the keyword, index and quoted-name rewrites, on the line
      after the match's own newlines. */
  function TokenOf(m: Match, line: int): (t: Token)
    requires Yields(m)
    ensures t.line == line + Newlines(m.text)
    ensures m.rule == IdentIndex ==> t.kind == IdentIndex && t.value == m.inner
    ensures m.rule == IdentString ==> t.kind == Identifier && t.value == m.inner
    ensures m.rule == Identifier ==> t.kind == (if m.text in Keywords then Keyword(m.text) else Identifier)
    ensures m.rule !in {IdentIndex, IdentString, Identifier} ==> t.kind == m.rule && t.value == m.text
  {
    var kind :=
      if m.rule == Identifier && m.text in Keywords then Keyword(m.text)
      else if m.rule == IdentString then Identifier
      else m.rule;
    var value := if m.rule == IdentIndex || m.rule == IdentString then m.inner else m.text;
    Token(line + Newlines(m.text), kind, value)
  }

  /** One pass of the loop body. */
  function Step(st: LoopState, m: Match): (r: LoopState)
    ensures r.line == st.line + Advance(m)
    ensures m.rule == Illegal ==> r.tokens == st.tokens && r.error == Some(SyntaxError(st.line, Unexpected(m.text)))
    ensures m.rule != Illegal ==> r.error == st.error
    ensures Yields(m) ==> r.tokens == st.tokens + [TokenOf(m, st.line)]
    ensures !Yields(m) ==> r.tokens == st.tokens
  {
    match m.rule
    case Newline => st.(line := st.line + 1)
    case Skip => st
    case Illegal => st.(error := Some(SyntaxError(st.line, Unexpected(m.text))))
    case _ =>
      var t := TokenOf(m, st.line);
      st.(line := t.line, tokens := st.tokens + [t])
  }

  function Run(ms: seq<Match>, st: LoopState): LoopState
    decreases |ms|
  {
    if ms == [] || st.error.Some? then st else Run(ms[1..], Step(st, ms[0]))
  }

  /** What `tokenize(source, line_num)` produces for the matches `ms`. */
  function Lex(ms: seq<Match>, start: int): LoopState
  {
    Run(ms, LoopState(start, [], None))
  }

  /** `tokenize(source, line_num)`; `imports` stands for the identifier
      patterns the table takes from liquid.expressions.common. */
  method Tokenize(source: string, imports: Imports, lineNum: int := 1)
    returns (tokens: seq<Token>, error: Option<SyntaxError>)
    ensures var r := Lex(Scan(LoopTokenRules, source, 0, Compiled(imports)), lineNum);
            tokens == r.tokens && error == r.error
  {
    tokens, error := Emit(Scan(LoopTokenRules, source, 0, Compiled(imports)), lineNum);
  }

  /** The `for` loop of `tokenize` over the matches of the table; the
      `raise` becomes a return with the error set. */
  method Emit(ms: seq<Match>, lineNum: int) returns (tokens: seq<Token>, error: Option<SyntaxError>)
    ensures tokens == Lex(ms, lineNum).tokens && error == Lex(ms, lineNum).error
  {
    var line := lineNum;
    tokens, error := [], None;
    for i := 0 to |ms|
      invariant error.None? && LoopState(line, tokens, error) == Lex(ms[..i], lineNum)
    {
      LexPrefixStep(ms, i, lineNum);
      line, tokens, error := EmitMatch(ms[i], line, tokens);
      assert LoopState(line, tokens, error) == Lex(ms[..i + 1], lineNum);
      if error.Some? {
        LexStops(ms, i + 1, lineNum);
        return;
      }
    }
    assert ms[..|ms|] == ms;
  }

  /** One pass of the loop body for match `m`: the kind and value are
      adjusted, NEWLINE and SKIP `continue`, ILLEGAL raises, and the line
      advances by the match's newlines before the token is yielded. */
  method EmitMatch(m: Match, line0: int, tokens0: seq<Token>)
    returns (line: int, tokens: seq<Token>, error: Option<SyntaxError>)
    ensures LoopState(line, tokens, error) == Step(LoopState(line0, tokens0, None), m)
  {
    line, tokens, error := line0, tokens0, None;
    var kind, value := m.rule, m.text;
    var newlines := Newlines(value);
    if kind == Identifier && value in Keywords {
      kind := Keyword(value);
    } else if kind == IdentIndex {
      value := m.inner;
    } else if kind == IdentString {
      kind, value := Identifier, m.inner;
    } else if kind == Newline {
      line := line + 1;
      return;
    } else if kind == Skip {
      return;
    } else if kind == Illegal {
      error := Some(SyntaxError(line, Unexpected(value)));
      return;
    }
    line := line + newlines;
    tokens := tokens + [Token(line, kind, value)];
    assert Token(line, kind, value) == TokenOf(m, line0);
  }

  // ---------------------------------------------------------------------
  // Properties of the loop

  lemma {:induction false} RunAppend(ms: seq<Match>, m: Match, st: LoopState)
    ensures var r := Run(ms, st);
            Run(ms + [m], st) == if r.error.Some? then r else Step(r, m)
    decreases |ms|
  {
    if ms == [] {
      assert ms + [m] == [m];
      assert [m][1..] == [];
    } else if st.error.None? {
      assert (ms + [m])[1..] == ms[1..] + [m];
      RunAppend(ms[1..], m, Step(st, ms[0]));
    }
  }

  /** The run over one more match of `ms`, when the run before it did not
      fail. */
  lemma LexPrefixStep(ms: seq<Match>, i: nat, start: int)
    requires i < |ms| && Lex(ms[..i], start).error.None?
    ensures Lex(ms[..i + 1], start) == Step(Lex(ms[..i], start), ms[i])
  {
    assert ms[..i + 1] == ms[..i] + [ms[i]];
    RunAppend(ms[..i], ms[i], LoopState(start, [], None));
  }

  /** Once a prefix fails, the rest of the matches change nothing. */
  lemma LexStops(ms: seq<Match>, i: nat, start: int)
    requires i <= |ms| && Lex(ms[..i], start).error.Some?
    ensures Lex(ms, start) == Lex(ms[..i], start)
  {
    assert ms == ms[..i] + ms[i..];
    RunConcat(ms[..i], ms[i..], LoopState(start, [], None));
    assert Run(ms[i..], Lex(ms[..i], start)) == Lex(ms[..i], start);
  }

  lemma {:induction false} RunConcat(a: seq<Match>, b: seq<Match>, st: LoopState)
    ensures Run(a + b, st) == Run(b, Run(a, st))
    decreases |a|
  {
    if a == [] {
      assert a + b == b;
    } else if st.error.None? {
      assert (a + b)[1..] == a[1..] + b;
      RunConcat(a[1..], b, Step(st, a[0]));
    } else {
      assert Run(b, st) == st;
    }
  }

  /** Numbering starts at `start`; without an error the running line is
      `start` plus the advance of every match, and an error carries the
      running line. */
  lemma {:induction false} LexLine(ms: seq<Match>, start: int)
    ensures var r := Lex(ms, start);
            && start <= r.line <= start + AdvanceAll(ms)
            && (r.error.None? ==> r.line == start + AdvanceAll(ms))
            && (r.error.Some? ==> r.error.value.line == r.line)
    decreases |ms|
  {
    if ms != [] {
      var pre, m := ms[..|ms| - 1], ms[|ms| - 1];
      assert ms == pre + [m];
      LexLine(pre, start);
      RunAppend(pre, m, LoopState(start, [], None));
      AdvanceAllAppend(pre, m);
    }
  }

  /** The effect of the match after the prefix `ms` when `ms` ran without
      error: a yielded token carries the line after the prefix and after
      the match's own newlines. */
  lemma {:induction false} LexNext(ms: seq<Match>, m: Match, start: int)
    requires Lex(ms, start).error.None?
    ensures var before := Lex(ms, start);
            var after := Lex(ms + [m], start);
            && (m.rule == Newline ==> after.line == before.line + 1 && after.tokens == before.tokens)
            && (m.rule == Skip ==> after == before)
            && (m.rule == Illegal ==>
                  after.tokens == before.tokens
                  && after.error == Some(SyntaxError(start + AdvanceAll(ms), Unexpected(m.text))))
            && (Yields(m) ==>
                  after.tokens == before.tokens + [TokenOf(m, start + AdvanceAll(ms))]
                  && after.tokens[|after.tokens| - 1].line == start + AdvanceAll(ms + [m]))
  {
    LexAppend(ms, m, start);
    AdvanceAllAppend(ms, m);
  }

  /** One more match after a prefix that ran without error: one pass of the
      body from the prefix's state, whose line is `start` advanced by every
      earlier match. */
  lemma LexAppend(ms: seq<Match>, m: Match, start: int)
    requires Lex(ms, start).error.None?
    ensures Lex(ms + [m], start) == Step(Lex(ms, start), m)
    ensures Lex(ms, start).line == start + AdvanceAll(ms)
  {
    RunAppend(ms, m, LoopState(start, [], None));
    LexLine(ms, start);
  }

  /** Emitted lines never decrease and lie between `start` and the running line. */
  lemma {:induction false} LexLinesOrdered(ms: seq<Match>, start: int)
    ensures var r := Lex(ms, start);
            LinesOrdered(r.tokens) && LinesWithin(r.tokens, start, r.line)
    decreases |ms|
  {
    if ms != [] {
      var pre, m := ms[..|ms| - 1], ms[|ms| - 1];
      assert ms == pre + [m];
      LexLinesOrdered(pre, start);
      LexLine(pre, start);
      RunAppend(pre, m, LoopState(start, [], None));
      var r := Lex(pre, start);
      if r.error.None? {
        var line := r.line + Advance(m);
        assert LinesWithin(r.tokens, start, line);
        if Yields(m) {
          AppendOrdered(r.tokens, [TokenOf(m, r.line)], start, line);
        }
      }
    }
  }

  /** No emitted token is NEWLINE, SKIP, ILLEGAL or IDENTSTRING; a keyword
      token is one of the loop keywords spelled by its own value. */
  predicate CleanToken(t: Token)
  {
    && t.kind !in {Newline, Skip, Illegal, IdentString}
    && (t.kind.Keyword? ==> t.kind.word == t.value && t.value in Keywords)
  }

  lemma {:induction false} LexTokensClean(ms: seq<Match>, start: int)
    requires forall j :: 0 <= j < |ms| ==> RuleKind(ms[j].rule)
    ensures forall t :: t in Lex(ms, start).tokens ==> CleanToken(t)
    decreases |ms|
  {
    if ms != [] {
      var pre, m := ms[..|ms| - 1], ms[|ms| - 1];
      assert ms == pre + [m];
      LexTokensClean(pre, start);
      RunAppend(pre, m, LoopState(start, [], None));
    }
  }

  /** A run fails exactly when some match is ILLEGAL. */
  lemma {:induction false} LexFailsIffIllegal(ms: seq<Match>, start: int)
    ensures Lex(ms, start).error.None? <==> forall j :: 0 <= j < |ms| ==> ms[j].rule != Illegal
    decreases |ms|
  {
    if ms != [] {
      var pre, m := ms[..|ms| - 1], ms[|ms| - 1];
      assert ms == pre + [m];
      LexFailsIffIllegal(pre, start);
      RunAppend(pre, m, LoopState(start, [], None));
      if Lex(ms, start).error.None? {
        forall j | 0 <= j < |ms| ensures ms[j].rule != Illegal {
          if j < |pre| { assert pre[j] == ms[j]; }
        }
      } else if Lex(pre, start).error.Some? {
        var j :| 0 <= j < |pre| && pre[j].rule == Illegal;
        assert ms[j] == pre[j];
      } else {
        forall j | 0 <= j < |pre| ensures ms[j].rule != Illegal { assert ms[j] == pre[j]; }
      }
    }
  }

  /** A run fails at its first ILLEGAL match, on the running line there,
      and keeps the tokens the matches before it yielded. */
  lemma {:induction false} LexFailsAtFirstIllegal(ms: seq<Match>, j: nat, start: int)
    requires j < |ms| && ms[j].rule == Illegal
    requires forall k :: 0 <= k < j ==> ms[k].rule != Illegal
    ensures Lex(ms, start).error == Some(SyntaxError(start + AdvanceAll(ms[..j]), Unexpected(ms[j].text)))
    ensures Lex(ms, start).tokens == Lex(ms[..j], start).tokens
  {
    var pre := ms[..j];
    LexFailsIffIllegal(pre, start);
    LexLine(pre, start);
    RunAppend(pre, ms[j], LoopState(start, [], None));
    var r := Lex(pre + [ms[j]], start);
    assert ms == (pre + [ms[j]]) + ms[j + 1..];
    RunConcat(pre + [ms[j]], ms[j + 1..], LoopState(start, [], None));
    assert Run(ms[j + 1..], r) == r;
  }

  /** Over shaped matches without ILLEGAL, the advance is the number of
      newlines in the matched text. */
  lemma {:induction false} AdvanceIsNewlines(ms: seq<Match>)
    requires forall j :: 0 <= j < |ms| ==> ShapedMatch(ms[j]) && ms[j].rule != Illegal
    ensures AdvanceAll(ms) == Newlines(Texts(ms))
  {
    if ms != [] {
      AdvanceIsNewlines(ms[1..]);
      NewlinesAppend(ms[0].text, Texts(ms[1..]));
      if ms[0].rule == Newline {
        assert Newlines(ms[0].text) == 1 by {
          assert ms[0].text == "\n";
          assert ms[0].text[1..] == [];
        }
      } else if ms[0].rule == Skip {
        NewlinesNone(ms[0].text);
      }
    }
  }

  /** Over the real table: a run without error ends on `start` plus the
      number of newlines in the source, and every token it yields is clean. */
  lemma EndToEnd(source: string, start: int, imports: Imports)
    ensures var r := Lex(Scan(LoopTokenRules, source, 0, Compiled(imports)), start);
            && (r.error.None? ==> r.line == start + Newlines(source))
            && forall t :: t in r.tokens ==> CleanToken(t)
  {
    var ms := Scan(LoopTokenRules, source, 0, Compiled(imports));
    LoopTokenRulesWellFormed();
    CompiledSound(imports);
    ScanShaped(LoopTokenRules, source, 0, Compiled(imports));
    ScanCovers(LoopTokenRules, source, 0, Compiled(imports));
    LexTokensClean(ms, start);
    LexLine(ms, start);
    if Lex(ms, start).error.None? {
      LexFailsIffIllegal(ms, start);
      AdvanceIsNewlines(ms);
      assert source[0..] == source;
    }
  }
}
