/**
 * The template delimiting lexer `_tokenize_template` of liquid/lex.py.
 *
 * The compiled template rules split a template into four kinds of match: a
 * RAW block, a STATEMENT (`{{ ... }}`), a TAG (`{% ... %}`) and the LITERAL
 * text between them. The loop reads the line count before each match and
 * then advances it by the newlines of the whole matched text. A STATEMENT
 * yields its inner `stmt` group; a TAG yields a TAG token with its name
 * (possibly empty) and, when the expression is non-empty, an EXPRESSION
 * token on the same line; a RAW block yields its interior as one LITERAL.
 * Whitespace control travels in a single `lstrip` flag: a STATEMENT or TAG
 * that ends with `-` sets it, one that does not clears it, and it
 * left-strips every later LITERAL until the next STATEMENT or TAG. A
 * LITERAL is right-stripped when the delimiter after it starts with `-`,
 * dropped when nothing is left, and stops the run with "expected '}}',
 * found 'eof'" when what is left starts with `{{` or `{%` (an unterminated
 * statement or tag), on the count after the literal's own newlines.
 *
 * The matches are taken as given: the scanner (a lazy, look-ahead regular
 * expression built from the delimiters) is not part of this model.
 */
module TemplateLexer {
  import opened Tokens

  /** One match of the template rules, with the groups the loop reads. An
      absent `rss`, `rst` or `rstrip` group is the empty string. */
  datatype TemplateMatch =
    | RawMatch(text: string, raw: string)
    | StatementMatch(text: string, stmt: string, rss: string)
    | TagMatch(text: string, name: string, expr: string, rst: string)
    | LiteralMatch(text: string, rstrip: string)

  /** The loop's variables: the line count, the whitespace-control flag,
      the tokens yielded so far and the error that ended the run, if any. */
  datatype TemplateState = TemplateState(count: int, lstrip: bool, tokens: seq<Token>, error: Option<SyntaxError>)

  const Start := TemplateState(1, false, [], None)

  /** Python's `v.startswith(prefix)`. */
  predicate StartsWith(v: string, prefix: string)
  {
    |prefix| <= |v| && v[..|prefix|] == prefix
  }

  /** A literal that opens a statement or a tag it never closes. */
  predicate Unterminated(v: string)
  {
    StartsWith(v, "{{") || StartsWith(v, "{%")
  }

  /** A literal's text after whitespace control. */
  function LiteralValue(text: string, lstrip: bool, rstrip: string): string
  {
    var v := if lstrip then LStrip(text) else text;
    if rstrip != [] then RStrip(v) else v
  }

  /** The tokens of a tag on line `line`. */
  function TagTokens(name: string, expr: string, line: int): seq<Token>
  {
    [Token(line, Tag, name)] + if expr != [] then [Token(line, Expression, expr)] else []
  }

  /** The whitespace-control flag after match `m`: a STATEMENT or TAG sets
      it to its own trim marker, anything else leaves it. */
  function NextTrim(lstrip: bool, m: TemplateMatch): bool
  {
    match m
    case StatementMatch(_, _, rss) => rss != []
    case TagMatch(_, _, _, rst) => rst != []
    case _ => lstrip
  }

  /** `m` is a literal that, stripped under `lstrip`, is non-empty and opens
      a statement or tag. */
  predicate LiteralFails(m: TemplateMatch, lstrip: bool)
  {
    m.LiteralMatch? &&
    var v := LiteralValue(m.text, lstrip, m.rstrip);
    v != [] && Unterminated(v)
  }

  /** The tokens match `m` yields on line `line` under the flag `lstrip`. */
  function Yielded(m: TemplateMatch, lstrip: bool, line: int): seq<Token>
  {
    match m
    case StatementMatch(_, stmt, _) => [Token(line, Statement, stmt)]
    case TagMatch(_, name, expr, _) => TagTokens(name, expr, line)
    case RawMatch(_, raw) => [Token(line, Literal, raw)]
    case LiteralMatch(text, rstrip) =>
      var v := LiteralValue(text, lstrip, rstrip);
      if v == [] || Unterminated(v) then [] else [Token(line, Literal, v)]
  }

  /** One pass of the loop body, from a state without error: the tokens
      carry the count read before the match, the count then grows by the
      match's newlines, and a failing literal raises on the grown count. */
  function Step(st: TemplateState, m: TemplateMatch): TemplateState
  {
    var count := st.count + Newlines(m.text);
    TemplateState(count, NextTrim(st.lstrip, m), st.tokens + Yielded(m, st.lstrip, st.count),
                  if LiteralFails(m, st.lstrip) then Some(SyntaxError(count, ExpectedCloseFoundEof)) else None)
  }

  /** The loop from state `st` over the remaining matches; it stops at the
      first error. */
  function Run(ms: seq<TemplateMatch>, st: TemplateState): TemplateState
    decreases |ms|
  {
    if ms == [] || st.error.Some? then st else Run(ms[1..], Step(st, ms[0]))
  }

  /** What `_tokenize_template` produces for the matches `ms`. */
  function Lex(ms: seq<TemplateMatch>): TemplateState
  {
    Run(ms, Start)
  }

  /** `_tokenize_template`: the `for` loop over the matches; the `raise`
      becomes a return with the error set. */
  method TokenizeTemplate(ms: seq<TemplateMatch>) returns (tokens: seq<Token>, error: Option<SyntaxError>)
    ensures tokens == Lex(ms).tokens && error == Lex(ms).error
  {
    var lineCount := 1;
    var lstrip := false;
    tokens, error := [], None;
    for i := 0 to |ms|
      invariant error.None? && TemplateState(lineCount, lstrip, tokens, error) == Lex(ms[..i])
    {
      LexPrefixStep(ms, i);
      lineCount, lstrip, tokens, error := LexMatch(ms[i], lineCount, lstrip, tokens);
      assert TemplateState(lineCount, lstrip, tokens, error) == Lex(ms[..i + 1]);
      if error.Some? {
        LexStops(ms, i + 1);
        return;
      }
    }
    assert ms[..|ms|] == ms;
  }

  /** One pass of the loop body for match `m`: the tokens carry the count
      read before the match, the count grows by the match's newlines, and
      the literal check raises on the grown count. */
  method LexMatch(m: TemplateMatch, count0: int, lstrip0: bool, tokens0: seq<Token>)
    returns (lineCount: int, lstrip: bool, tokens: seq<Token>, error: Option<SyntaxError>)
    ensures TemplateState(lineCount, lstrip, tokens, error) == Step(TemplateState(count0, lstrip0, tokens0, None), m)
  {
    lstrip, tokens, error := lstrip0, tokens0, None;
    var lineNum := count0;
    lineCount := count0 + Newlines(m.text);
    match m {
      case StatementMatch(_, stmt, rss) =>
        lstrip := rss != [];
        tokens := tokens + [Token(lineNum, Statement, stmt)];
        assert Yielded(m, lstrip0, count0) == [Token(lineNum, Statement, stmt)];
      case TagMatch(_, name, expr, rst) =>
        tokens := tokens + [Token(lineNum, Tag, name)];
        lstrip := rst != [];
        if expr != [] {
          tokens := tokens + [Token(lineNum, Expression, expr)];
        }
        assert tokens == tokens0 + TagTokens(name, expr, count0);
      case RawMatch(_, raw) =>
        tokens := tokens + [Token(lineNum, Literal, raw)];
        assert Yielded(m, lstrip0, count0) == [Token(lineNum, Literal, raw)];
      case LiteralMatch(text, rstrip) =>
        var value := StripLiteral(text, lstrip, rstrip);
        if value != [] {
          if StartsWith(value, "{{") || StartsWith(value, "{%") {
            error := Some(SyntaxError(lineCount, ExpectedCloseFoundEof));
            assert LiteralFails(m, lstrip0) && Yielded(m, lstrip0, count0) == [];
            return;
          }
          tokens := tokens + [Token(lineNum, Literal, value)];
        }
        assert !LiteralFails(m, lstrip0);
        assert tokens == tokens0 + Yielded(m, lstrip0, count0);
    }
  }

  /** The whitespace control applied to a literal's text. */
  method StripLiteral(text: string, lstrip: bool, rstrip: string) returns (value: string)
    ensures value == LiteralValue(text, lstrip, rstrip)
  {
    value := text;
    if lstrip {
      value := LStrip(value);
    }
    if rstrip != [] {
      value := RStrip(value);
    }
  }

  // ---------------------------------------------------------------------
  // Properties of the loop

  /** The matched texts, one after the other. */
  function MatchedText(ms: seq<TemplateMatch>): string
  {
    if ms == [] then [] else MatchedText(ms[..|ms| - 1]) + ms[|ms| - 1].text
  }

  /** The trim marker of the last STATEMENT or TAG among `ms`: whether it
      ended with `-`; false when there is none. */
  function LastTrim(ms: seq<TemplateMatch>): bool
  {
    if ms == [] then false else NextTrim(LastTrim(ms[..|ms| - 1]), ms[|ms| - 1])
  }

  /** Running one more match: nothing happens after an error, otherwise one
      more pass of the body. */
  lemma {:induction false} RunAppend(ms: seq<TemplateMatch>, m: TemplateMatch, st: TemplateState)
    ensures var r := Run(ms, st);
            Run(ms + [m], st) == if r.error.Some? then r else Step(r, m)
    decreases |ms|
  {
    if ms == [] {
      assert ms + [m] == [m];
      assert [m][1..] == [];
    } else if st.error.None? {
      assert (ms + [m])[1..] == ms[1..] + [m];
      RunAppend(ms[1..], m, Step(st, ms[0]));
    }
  }

  /** The run over one more match of `ms`, when the run before it did not
      fail. */
  lemma LexPrefixStep(ms: seq<TemplateMatch>, i: nat)
    requires i < |ms| && Lex(ms[..i]).error.None?
    ensures Lex(ms[..i + 1]) == Step(Lex(ms[..i]), ms[i])
  {
    assert ms[..i + 1] == ms[..i] + [ms[i]];
    RunAppend(ms[..i], ms[i], Start);
  }

  /** Once a prefix fails, the rest of the matches change nothing. */
  lemma LexStops(ms: seq<TemplateMatch>, i: nat)
    requires i <= |ms| && Lex(ms[..i]).error.Some?
    ensures Lex(ms) == Lex(ms[..i])
  {
    assert ms == ms[..i] + ms[i..];
    RunConcat(ms[..i], ms[i..], Start);
    assert Run(ms[i..], Lex(ms[..i])) == Lex(ms[..i]);
  }

  /** Running two stretches of matches one after the other. */
  lemma {:induction false} RunConcat(a: seq<TemplateMatch>, b: seq<TemplateMatch>, st: TemplateState)
    ensures Run(a + b, st) == Run(b, Run(a, st))
    decreases |a|
  {
    if a == [] {
      assert a + b == b;
    } else if st.error.None? {
      assert (a + b)[1..] == a[1..] + b;
      RunConcat(a[1..], b, Step(st, a[0]));
    } else {
      assert Run(b, st) == st;
    }
  }

  /** The count starts at 1 and grows by the newlines of every match run,
      including the literal that raises; the flag is the trim marker of the
      last STATEMENT or TAG. */
  lemma {:induction false} LexCount(ms: seq<TemplateMatch>)
    ensures var r := Lex(ms);
            && 1 <= r.count <= 1 + Newlines(MatchedText(ms))
            && (r.error.None? ==> r.count == 1 + Newlines(MatchedText(ms)) && r.lstrip == LastTrim(ms))
            && (r.error.Some? ==> r.error.value.line == r.count)
    decreases |ms|
  {
    if ms != [] {
      var pre, m := ms[..|ms| - 1], ms[|ms| - 1];
      assert ms == pre + [m];
      LexCount(pre);
      RunAppend(pre, m, Start);
      NewlinesAppend(MatchedText(pre), m.text);
    }
  }

  /** The effect of a STATEMENT, TAG or RAW match after the prefix `ms`
      when `ms` ran without error: its tokens carry line 1 + the newlines of
      the earlier matches; a TAG always yields its name, even an empty one,
      and an EXPRESSION only for a non-empty expression; a RAW block yields
      its interior unchanged; only STATEMENT and TAG touch the flag. */
  lemma DelimiterNext(ms: seq<TemplateMatch>, m: TemplateMatch)
    requires Lex(ms).error.None? && !m.LiteralMatch?
    ensures var before, after := Lex(ms), Lex(ms + [m]);
            var line := 1 + Newlines(MatchedText(ms));
            && after.error.None?
            && after.count == 1 + Newlines(MatchedText(ms + [m]))
            && (m.StatementMatch? ==>
                  after.tokens == before.tokens + [Token(line, Statement, m.stmt)] && after.lstrip == (m.rss != []))
            && (m.TagMatch? ==>
                  after.tokens == before.tokens + TagTokens(m.name, m.expr, line) && after.lstrip == (m.rst != []))
            && (m.RawMatch? ==>
                  after.tokens == before.tokens + [Token(line, Literal, m.raw)] && after.lstrip == before.lstrip)
  {
    LexAppend(ms, m);
  }

  /** One more match after a prefix that ran without error: one pass of the
      body from the prefix's state, whose count and flag are the prefix's
      newlines and last trim marker. */
  lemma LexAppend(ms: seq<TemplateMatch>, m: TemplateMatch)
    requires Lex(ms).error.None?
    ensures Lex(ms + [m]) == Step(Lex(ms), m)
    ensures Lex(ms).count == 1 + Newlines(MatchedText(ms)) && Lex(ms).lstrip == LastTrim(ms)
    ensures 1 + Newlines(MatchedText(ms + [m])) == Lex(ms).count + Newlines(m.text)
  {
    LexCount(ms);
    RunAppend(ms, m, Start);
    assert (ms + [m])[..|ms + [m]| - 1] == ms;
    NewlinesAppend(MatchedText(ms), m.text);
  }

  /** The effect of a LITERAL after the prefix `ms` when `ms` ran without
      error: it is left-stripped exactly when the last STATEMENT or TAG
      before it ended with `-`, right-stripped when its own `rstrip` group
      is non-empty, dropped when empty, and otherwise either yielded on
      line 1 + the newlines of the earlier matches or, when it opens a
      statement or tag, reported on the count after its own newlines. */
  lemma LiteralNext(ms: seq<TemplateMatch>, m: TemplateMatch)
    requires Lex(ms).error.None? && m.LiteralMatch?
    ensures var before, after := Lex(ms), Lex(ms + [m]);
            var line := 1 + Newlines(MatchedText(ms));
            var v := LiteralValue(m.text, LastTrim(ms), m.rstrip);
            && after.count == 1 + Newlines(MatchedText(ms + [m]))
            && after.lstrip == before.lstrip
            && (v == [] ==> after.tokens == before.tokens && after.error.None?)
            && (v != [] && Unterminated(v) ==>
                  after.tokens == before.tokens
                  && after.error == Some(SyntaxError(after.count, ExpectedCloseFoundEof)))
            && (v != [] && !Unterminated(v) ==>
                  after.tokens == before.tokens + [Token(line, Literal, v)] && after.error.None?)
  {
    LexAppend(ms, m);
    var st := Lex(ms);
    var v := LiteralValue(m.text, st.lstrip, m.rstrip);
    if v == [] {
      assert !LiteralFails(m, st.lstrip) && Yielded(m, st.lstrip, st.count) == [];
    } else if Unterminated(v) {
      assert LiteralFails(m, st.lstrip) && Yielded(m, st.lstrip, st.count) == [];
    } else {
      assert !LiteralFails(m, st.lstrip) && Yielded(m, st.lstrip, st.count) == [Token(st.count, Literal, v)];
    }
  }

  /** Every token reports a line no later than the count, and lines never
      decrease along the stream. */
  lemma {:induction false} LexLinesOrdered(ms: seq<TemplateMatch>)
    ensures var r := Lex(ms);
            LinesOrdered(r.tokens) && LinesWithin(r.tokens, 1, r.count)
    decreases |ms|
  {
    if ms != [] {
      var pre, m := ms[..|ms| - 1], ms[|ms| - 1];
      assert ms == pre + [m];
      LexLinesOrdered(pre);
      LexCount(pre);
      RunAppend(pre, m, Start);
      var r := Lex(pre);
      if r.error.None? {
        AppendOrdered(r.tokens, Yielded(m, r.lstrip, r.count), 1, r.count);
      }
    }
  }

  /** Every token is a TAG, EXPRESSION, STATEMENT or LITERAL; every
      EXPRESSION is non-empty and comes right after a TAG on the same
      line. */
  predicate WellFormedStream(ts: seq<Token>)
  {
    && (forall k :: 0 <= k < |ts| ==> ts[k].kind in {Tag, Expression, Statement, Literal})
    && (forall k :: 0 <= k < |ts| && ts[k].kind == Expression ==>
          0 < k && ts[k - 1].kind == Tag && ts[k - 1].line == ts[k].line && ts[k].value != [])
  }

  lemma StreamAppend(ts: seq<Token>, more: seq<Token>)
    requires WellFormedStream(ts) && WellFormedStream(more)
    requires more != [] ==> more[0].kind != Expression
    ensures WellFormedStream(ts + more)
  {
    var r := ts + more;
    forall k | 0 <= k < |r| && r[k].kind == Expression
      ensures 0 < k && r[k - 1].kind == Tag && r[k - 1].line == r[k].line && r[k].value != []
    {
      if k >= |ts| {
        assert r[k] == more[k - |ts|];
        assert k - |ts| > 0;
        assert r[k - 1] == more[k - 1 - |ts|];
      }
    }
  }

  lemma YieldedWellFormed(m: TemplateMatch, lstrip: bool, line: int)
    ensures var ts := Yielded(m, lstrip, line);
            WellFormedStream(ts) && (ts != [] ==> ts[0].kind != Expression)
  {
  }

  lemma {:induction false} LexStreamWellFormed(ms: seq<TemplateMatch>)
    ensures WellFormedStream(Lex(ms).tokens)
    decreases |ms|
  {
    if ms != [] {
      var pre, m := ms[..|ms| - 1], ms[|ms| - 1];
      assert ms == pre + [m];
      LexStreamWellFormed(pre);
      RunAppend(pre, m, Start);
      var r := Lex(pre);
      if r.error.None? {
        YieldedWellFormed(m, r.lstrip, r.count);
        StreamAppend(r.tokens, Yielded(m, r.lstrip, r.count));
      }
    }
  }

  /** Whitespace control only trims: the literal's value is a slice of its
      text with whitespace outside it; it keeps no leading whitespace when
      left-stripped, no trailing whitespace when right-stripped, and is the
      text itself when neither applies. */
  lemma LiteralValueTrims(text: string, lstrip: bool, rstrip: string)
    ensures var v := LiteralValue(text, lstrip, rstrip);
            && (exists a, b :: SliceBetweenSpace(text, v, a, b))
            && (lstrip && v != [] ==> !IsSpace(v[0]))
            && (rstrip != [] && v != [] ==> !IsSpace(v[|v| - 1]))
            && (!lstrip && rstrip == [] ==> v == text)
  {
    LiteralValueSlice(text, lstrip, rstrip);
    LiteralValueEdges(text, lstrip, rstrip);
  }

  /** The literal's value is a slice of its text with only whitespace
      outside it. */
  lemma LiteralValueSlice(text: string, lstrip: bool, rstrip: string)
    ensures exists a, b :: SliceBetweenSpace(text, LiteralValue(text, lstrip, rstrip), a, b)
  {
    var l := if lstrip then LStrip(text) else text;
    var a := |text| - |l|;
    assert l == text[a..] && forall k :: 0 <= k < a ==> IsSpace(text[k]);
    var v := if rstrip != [] then RStrip(l) else l;
    assert v == l[..|v|] && forall k :: |v| <= k < |l| ==> IsSpace(l[k]);
    assert v == LiteralValue(text, lstrip, rstrip);
    TrimmedSlice(text, a, l, v);
    assert SliceBetweenSpace(text, v, a, a + |v|);
  }

  /** A left-stripped value starts, and a right-stripped value ends, with
      a character that is not whitespace. */
  lemma LiteralValueEdges(text: string, lstrip: bool, rstrip: string)
    ensures var v := LiteralValue(text, lstrip, rstrip);
            && (lstrip && v != [] ==> !IsSpace(v[0]))
            && (rstrip != [] && v != [] ==> !IsSpace(v[|v| - 1]))
  {
    var l := if lstrip then LStrip(text) else text;
    var v := if rstrip != [] then RStrip(l) else l;
    if lstrip && v != [] {
      assert v[0] == l[0];
    }
  }

  /** `v` is `text[a..b]` and only whitespace lies outside it. */
  predicate SliceBetweenSpace(text: string, v: string, a: int, b: int)
  {
    && 0 <= a <= b <= |text| && v == text[a..b]
    && (forall k :: 0 <= k < a ==> IsSpace(text[k]))
    && (forall k :: b <= k < |text| ==> IsSpace(text[k]))
  }

  /** A prefix `v` of the suffix `l` of `text` that starts at `a` is the slice
      of `text` from `a`, and whitespace after it in `l` is whitespace
      after it in `text`. */
  lemma TrimmedSlice(text: string, a: nat, l: string, v: string)
    requires a <= |text| && l == text[a..] && |v| <= |l| && v == l[..|v|]
    requires forall k :: |v| <= k < |l| ==> IsSpace(l[k])
    ensures v == text[a..a + |v|]
    ensures forall k :: a + |v| <= k < |text| ==> IsSpace(text[k])
  {
    forall k | a + |v| <= k < |text|
      ensures IsSpace(text[k])
    {
      assert text[k] == l[k - a];
    }
  }

  /** A run fails exactly when some literal, stripped under the flag its
      prefix leaves, is non-empty and opens a statement or tag. */
  predicate FailsAt(ms: seq<TemplateMatch>, j: int)
    requires 0 <= j < |ms|
  {
    LiteralFails(ms[j], LastTrim(ms[..j]))
  }

  lemma {:induction false} LexFailsIffUnterminated(ms: seq<TemplateMatch>)
    ensures Lex(ms).error.Some? <==> exists j :: 0 <= j < |ms| && FailsAt(ms, j)
    ensures Lex(ms).error.Some? ==> Lex(ms).error.value.reason == ExpectedCloseFoundEof
    decreases |ms|
  {
    if ms != [] {
      var pre, m := ms[..|ms| - 1], ms[|ms| - 1];
      assert ms == pre + [m];
      LexFailsIffUnterminated(pre);
      LexCount(pre);
      RunAppend(pre, m, Start);
      forall j | 0 <= j < |pre|
        ensures FailsAt(ms, j) == FailsAt(pre, j)
      {
        assert ms[..j] == pre[..j];
      }
      if Lex(pre).error.Some? {
        var j :| 0 <= j < |pre| && FailsAt(pre, j);
        assert FailsAt(ms, j);
      } else {
        assert ms[..|pre|] == pre;
        assert Lex(ms).error.Some? <==> FailsAt(ms, |pre|);
        if Lex(ms).error.None? {
          forall j | 0 <= j < |ms|
            ensures !FailsAt(ms, j)
          {
            if j < |pre| {
              assert !FailsAt(pre, j);
            }
          }
        }
      }
    }
  }

  /** A run fails at its first failing literal, on the count after that
      literal's own newlines, and keeps the tokens of the matches before it. */
  lemma LexFailsAtFirst(ms: seq<TemplateMatch>, j: nat)
    requires j < |ms| && FailsAt(ms, j)
    requires forall k :: 0 <= k < j ==> !FailsAt(ms, k)
    ensures Lex(ms).error == Some(SyntaxError(1 + Newlines(MatchedText(ms[..j + 1])), ExpectedCloseFoundEof))
    ensures Lex(ms).tokens == Lex(ms[..j]).tokens
  {
    var pre := ms[..j];
    forall k | 0 <= k < j
      ensures !FailsAt(pre, k)
    {
      assert !FailsAt(ms, k);
      assert pre[..k] == ms[..k] && pre[k] == ms[k];
    }
    LexFailsIffUnterminated(pre);
    LexCount(pre);
    LexPrefixStep(ms, j);
    assert ms[..j + 1][..j] == pre;
    NewlinesAppend(MatchedText(pre), ms[j].text);
    LexStops(ms, j + 1);
  }
}
