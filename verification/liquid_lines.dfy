/**
 * The line lexer of the "liquid" tag, `tokenize_liquid_expression` in
 * liquid/lex.py, over the matches of the search in LiquidPattern.
 *
 * Each match starts at a position of the body where, after spaces and
 * tabs, a word follows; the word is the tag name and the rest of that line,
 * up to but not including its '\n', is the expression. The lexer yields a
 * TAG token per match and an EXPRESSION token when the expression is
 * non-empty, both on the line count read before the match; the count then
 * grows by the newlines inside the match. The newlines of text the search
 * passes over (a line with no word, and the newline that ends it) are never
 * counted, which is the miscount the corrected lexer at the end of this
 * module repairs.
 */
module LiquidLines {
  import opened Tokens
  import opened Patterns
  import opened LiquidPattern

  /** The tokens of one match on line `line`. */
  function MatchTokens(m: LineMatch, line: int): seq<Token>
  {
    [Token(line, Tag, m.name)] + if m.expr != [] then [Token(line, Expression, m.expr)] else []
  }

  /** The loop's variables: the line count and the tokens yielded so far. */
  datatype LineState = LineState(count: int, tokens: seq<Token>)

  /** One pass of the loop body: the match's tokens on the count read
      before it, then the count grows by the match's newlines. */
  function Step(st: LineState, m: LineMatch): LineState
  {
    LineState(st.count + Newlines(m.text), st.tokens + MatchTokens(m, st.count))
  }

  function Run(ms: seq<LineMatch>, st: LineState): LineState
  {
    if ms == [] then st else Run(ms[1..], Step(st, ms[0]))
  }

  /** The tokens the lexer yields for `ms`. */
  function LineTokens(ms: seq<LineMatch>): seq<Token>
  {
    Run(ms, LineState(1, [])).tokens
  }

  /** The matched texts, one after the other. */
  function MatchedText(ms: seq<LineMatch>): string
  {
    if ms == [] then [] else ms[0].text + MatchedText(ms[1..])
  }

  /** Number of matches with a non-empty expression. */
  function ExprCount(ms: seq<LineMatch>): (n: nat)
    ensures n <= |ms|
  {
    if ms == [] then 0 else (if ms[0].expr != [] then 1 else 0) + ExprCount(ms[1..])
  }

  /** `tokenize_liquid_expression(source)`. */
  method TokenizeLiquidExpression(source: string) returns (tokens: seq<Token>)
    ensures tokens == LineTokens(Search(source, 0))
  {
    tokens := Emit(Search(source, 0));
  }

  /** The `for` loop of `tokenize_liquid_expression` over the matches. */
  method Emit(ms: seq<LineMatch>) returns (tokens: seq<Token>)
    ensures tokens == LineTokens(ms)
  {
    var lineCount := 1;
    tokens := [];
    for i := 0 to |ms|
      invariant Run(ms[i..], LineState(lineCount, tokens)) == Run(ms, LineState(1, []))
    {
      var m := ms[i];
      ghost var before := LineState(lineCount, tokens);
      assert Run(ms[i..], before) == Run(ms[i + 1..], Step(before, m)) by {
        assert ms[i..][1..] == ms[i + 1..];
      }
      var lineNum := lineCount;
      lineCount := lineCount + Newlines(m.text);
      tokens := tokens + [Token(lineNum, Tag, m.name)];
      if m.expr != [] {
        tokens := tokens + [Token(lineNum, Expression, m.expr)];
      }
      assert tokens == before.tokens + MatchTokens(m, lineNum);
    }
  }

  // ---------------------------------------------------------------------
  // Properties of the line lexer

  lemma {:induction false} RunAppend(ms: seq<LineMatch>, m: LineMatch, st: LineState)
    ensures Run(ms + [m], st) == Step(Run(ms, st), m)
    decreases |ms|
  {
    if ms == [] {
      assert ms + [m] == [m];
      assert [m][1..] == [];
    } else {
      assert (ms + [m])[1..] == ms[1..] + [m];
      RunAppend(ms[1..], m, Step(st, ms[0]));
    }
  }

  lemma {:induction false} MatchedTextAppend(ms: seq<LineMatch>, m: LineMatch)
    ensures MatchedText(ms + [m]) == MatchedText(ms) + m.text
  {
    if ms == [] {
      assert ms + [m] == [m];
      assert [m][1..] == [];
    } else {
      assert (ms + [m])[1..] == ms[1..] + [m];
      MatchedTextAppend(ms[1..], m);
    }
  }

  /** The count after a run is 1 plus the newlines inside the matches. */
  lemma {:induction false} LineCount(ms: seq<LineMatch>)
    ensures Run(ms, LineState(1, [])).count == 1 + Newlines(MatchedText(ms))
    decreases |ms|
  {
    if ms != [] {
      var pre, m := ms[..|ms| - 1], ms[|ms| - 1];
      assert ms == pre + [m];
      LineCount(pre);
      RunAppend(pre, m, LineState(1, []));
      MatchedTextAppend(pre, m);
      NewlinesAppend(MatchedText(pre), m.text);
    }
  }

  /** The tokens of the next match carry the count read before it: 1 plus
      the newlines inside the earlier matches, whatever the search skipped. */
  lemma LineTokensAppend(ms: seq<LineMatch>, m: LineMatch)
    ensures LineTokens(ms + [m]) == LineTokens(ms) + MatchTokens(m, 1 + Newlines(MatchedText(ms)))
  {
    RunAppend(ms, m, LineState(1, []));
    LineCount(ms);
  }

  /** Every token is a TAG or an EXPRESSION; every EXPRESSION is non-empty
      and comes right after a TAG on the same line. */
  predicate WellPaired(ts: seq<Token>)
  {
    && (forall k :: 0 <= k < |ts| ==> ts[k].kind == Tag || ts[k].kind == Expression)
    && (forall k :: 0 <= k < |ts| && ts[k].kind == Expression ==>
          0 < k && ts[k - 1].kind == Tag && ts[k - 1].line == ts[k].line && ts[k].value != [])
  }

  lemma PairedAppend(ts: seq<Token>, m: LineMatch, line: int)
    requires WellPaired(ts)
    ensures WellPaired(ts + MatchTokens(m, line))
  {
    var r := ts + MatchTokens(m, line);
    assert r[|ts|] == Token(line, Tag, m.name);
    forall k | 0 <= k < |r| && r[k].kind == Expression
      ensures 0 < k && r[k - 1].kind == Tag && r[k - 1].line == r[k].line && r[k].value != []
    {
      if k > |ts| {
        assert k == |ts| + 1;
      }
    }
  }

  /** Tokens pair up, lines never decrease and stay between 1 and the final
      count, and there is one TAG per match and one EXPRESSION per
      non-empty expr. */
  lemma {:induction false} LineTokensShape(ms: seq<LineMatch>)
    ensures var st := Run(ms, LineState(1, []));
            && WellPaired(st.tokens)
            && LinesOrdered(st.tokens) && LinesWithin(st.tokens, 1, st.count)
            && |st.tokens| == |ms| + ExprCount(ms)
    decreases |ms|
  {
    if ms != [] {
      var pre, m := ms[..|ms| - 1], ms[|ms| - 1];
      assert ms == pre + [m];
      LineTokensShape(pre);
      RunAppend(pre, m, LineState(1, []));
      ExprCountAppend(pre, m);
      var st := Run(pre, LineState(1, []));
      LineCount(pre);
      PairedAppend(st.tokens, m, st.count);
      AppendOrdered(st.tokens, MatchTokens(m, st.count), 1, st.count);
      var next := Step(st, m);
      assert LinesWithin(next.tokens, 1, next.count);
    }
  }

  lemma {:induction false} ExprCountAppend(ms: seq<LineMatch>, m: LineMatch)
    ensures ExprCount(ms + [m]) == ExprCount(ms) + (if m.expr != [] then 1 else 0)
  {
    if ms == [] {
      assert ms + [m] == [m];
      assert [m][1..] == [];
    } else {
      assert (ms + [m])[1..] == ms[1..] + [m];
      ExprCountAppend(ms[1..], m);
    }
  }

  // ---------------------------------------------------------------------
  // The skipped-line miscount and its correction

  /** The line of position `pos` of the body: one more than the newlines before it. */
  function LineOf(s: string, pos: nat): int
    requires pos <= |s|
  {
    1 + Newlines(s[..pos])
  }

  /** A body whose second line is blank. */
  const BlankLine := "a\n\nb"

  lemma FirstLineOfBlankLine()
    ensures LineAt(BlankLine, 0) == Some(LineMatch(0, "a\n", "a", ""))
  {
    var s := BlankLine;
    assert SkipBlanks(s, 0) == 0;
    assert WordEnd(s, 1) == 1;
    assert WordEnd(s, 0) == 1;
    assert SkipBlanks(s, 1) == 1;
    assert EndOfLine(s, 1) == 1;
    assert s[0..2] == "a\n" && s[0..1] == "a" && s[1..1] == "";
  }

  lemma LastLineOfBlankLine()
    ensures LineAt(BlankLine, 2) == None
    ensures LineAt(BlankLine, 3) == Some(LineMatch(3, "b", "b", ""))
  {
    var s := BlankLine;
    assert SkipBlanks(s, 2) == 2;
    assert SkipBlanks(s, 3) == 3;
    assert WordEnd(s, 4) == 4;
    assert WordEnd(s, 3) == 4;
    assert SkipBlanks(s, 4) == 4;
    assert EndOfLine(s, 4) == 4;
    assert s[3..4] == "b" && s[4..4] == "";
  }

  /** The two lines of "a\n\nb" that start with a word. */
  lemma BlankLineMatches()
    ensures Search(BlankLine, 0) == [LineMatch(0, "a\n", "a", ""), LineMatch(3, "b", "b", "")]
  {
    FirstLineOfBlankLine();
    LastLineOfBlankLine();
    var s := BlankLine;
    assert Search(s, 4) == [];
    assert Search(s, 3) == [LineMatch(3, "b", "b", "")];
    assert Search(s, 2) == Search(s, 3);
  }

  lemma BlankLineNewlines()
    ensures Newlines("a\n") == 1
    ensures Newlines(BlankLine[..3]) == 2
  {
    assert "a\n"[1..] == "\n";
    assert "\n"[1..] == "";
    assert BlankLine[..3] == "a\n\n";
    assert "a\n\n"[1..] == "\n\n";
    assert "\n\n"[1..] == "\n";
  }

  /** "a\n\nb": the search skips the blank line, so the lexer reports the
      tag `b` on line 2 although it starts on line 3. */
  lemma BlankLineMiscount()
    ensures Search(BlankLine, 0) == [LineMatch(0, "a\n", "a", ""), LineMatch(3, "b", "b", "")]
    ensures LineTokens(Search(BlankLine, 0)) == [Token(1, Tag, "a"), Token(2, Tag, "b")]
    ensures LineOf(BlankLine, 3) == 3
  {
    BlankLineMatches();
    BlankLineNewlines();
    var m0, m1 := LineMatch(0, "a\n", "a", ""), LineMatch(3, "b", "b", "");
    var st1 := Step(LineState(1, []), m0);
    assert st1 == LineState(2, [Token(1, Tag, "a")]);
    var st2 := Step(st1, m1);
    assert st2.tokens == [Token(1, Tag, "a"), Token(2, Tag, "b")];
    assert [m0, m1][1..] == [m1];
    assert Run([m0, m1], LineState(1, [])) == Run([m1], st1);
    assert [m1][1..] == [];
    assert Run([m1], st1) == Run([], st2);
  }

  /** The intended numbering: each match's tokens carry the line its text
      starts on. */
  function FixedTokens(s: string, ms: seq<LineMatch>): seq<Token>
    requires forall j :: 0 <= j < |ms| ==> ms[j].start <= |s|
  {
    if ms == [] then []
    else FixedTokens(s, ms[..|ms| - 1]) + MatchTokens(ms[|ms| - 1], LineOf(s, ms[|ms| - 1].start))
  }

  /** Matches located in the body, in order, without overlapping. */
  predicate InOrder(s: string, ms: seq<LineMatch>)
  {
    && (forall j :: 0 <= j < |ms| ==> Located(s, ms[j]))
    && (forall j, k :: 0 <= j < k < |ms| ==> End(ms[j]) <= ms[k].start)
  }

  lemma NewlinesSplit(s: string, a: nat, b: nat)
    requires a <= b <= |s|
    ensures Newlines(s[..b]) == Newlines(s[..a]) + Newlines(s[a..b])
  {
    assert s[..b] == s[..a] + s[a..b];
    NewlinesAppend(s[..a], s[a..b]);
  }

  /** The corrected lexer: it also counts the newlines of the text the
      search skipped before each match, so every tag reports the line its
      match starts on. */
  method TokenizeLiquidExpressionFixed(source: string) returns (tokens: seq<Token>)
    ensures tokens == FixedTokens(source, Search(source, 0))
  {
    tokens := EmitFixed(source, Search(source, 0));
  }

  /** Where the matches before `ms[i]` end (0 before the first). */
  function EndBefore(ms: seq<LineMatch>, i: nat): nat
    requires i <= |ms|
  {
    if i == 0 then 0 else End(ms[i - 1])
  }

  /** The intended tokens of one more match. */
  lemma FixedTokensAppend(s: string, ms: seq<LineMatch>, i: nat)
    requires i < |ms| && InOrder(s, ms)
    ensures FixedTokens(s, ms[..i + 1]) == FixedTokens(s, ms[..i]) + MatchTokens(ms[i], LineOf(s, ms[i].start))
  {
    assert ms[..i + 1][..i] == ms[..i];
  }

  /** The next match starts where the matches before it end, or later. */
  lemma NextMatchAfter(s: string, ms: seq<LineMatch>, i: nat)
    requires i < |ms| && InOrder(s, ms)
    ensures EndBefore(ms, i) <= ms[i].start && Located(s, ms[i])
  {
    if i > 0 {
      assert End(ms[i - 1]) <= ms[i].start;
    }
  }

  /** The line at the start and at the end of a match, counted from an
      earlier position. */
  lemma LineOfAdvance(s: string, pos: nat, m: LineMatch)
    requires pos <= m.start && Located(s, m)
    ensures LineOf(s, m.start) == LineOf(s, pos) + Newlines(s[pos..m.start])
    ensures LineOf(s, End(m)) == LineOf(s, m.start) + Newlines(m.text)
  {
    NewlinesSplit(s, pos, m.start);
    NewlinesSplit(s, m.start, End(m));
  }

  method EmitFixed(source: string, ms: seq<LineMatch>) returns (tokens: seq<Token>)
    requires InOrder(source, ms)
    ensures tokens == FixedTokens(source, ms)
  {
    var lineCount := 1;
    var pos: nat := 0;
    tokens := [];
    for i := 0 to |ms|
      invariant pos == EndBefore(ms, i) && pos <= |source|
      invariant lineCount == LineOf(source, pos)
      invariant tokens == FixedTokens(source, ms[..i])
    {
      var m := ms[i];
      NextMatchAfter(source, ms, i);
      LineOfAdvance(source, pos, m);
      lineCount := lineCount + Newlines(source[pos..m.start]);
      var lineNum := lineCount;
      lineCount := lineCount + Newlines(m.text);
      pos := End(m);
      FixedTokensAppend(source, ms, i);
      tokens := tokens + [Token(lineNum, Tag, m.name)];
      if m.expr != [] {
        tokens := tokens + [Token(lineNum, Expression, m.expr)];
      }
    }
    assert ms[..|ms|] == ms;
  }

  /** The corrected lexer puts the tag `b` of "a\n\nb" on line 3. */
  lemma BlankLineFixed()
    ensures FixedTokens(BlankLine, Search(BlankLine, 0)) == [Token(1, Tag, "a"), Token(3, Tag, "b")]
  {
    BlankLineMatches();
    FixedTokensOfBlankLine();
  }

  /** The corrected numbering of the two matches of "a\n\nb". */
  lemma FixedTokensOfBlankLine()
    ensures FixedTokens(BlankLine, [LineMatch(0, "a\n", "a", ""), LineMatch(3, "b", "b", "")])
            == [Token(1, Tag, "a"), Token(3, Tag, "b")]
  {
    BlankLineNewlines();
    var m0, m1 := LineMatch(0, "a\n", "a", ""), LineMatch(3, "b", "b", "");
    assert [m0, m1][..1] == [m0] && [m0][..0] == [];
    assert LineOf(BlankLine, 0) == 1 by { assert BlankLine[..0] == []; }
    assert LineOf(BlankLine, 3) == 3;
    assert FixedTokens(BlankLine, [m0]) == FixedTokens(BlankLine, []) + MatchTokens(m0, 1);
    assert FixedTokens(BlankLine, [m0, m1]) == FixedTokens(BlankLine, [m0]) + MatchTokens(m1, 3);
  }

  /** No newline lies between the matches (or before the first): the
      search skipped only text on the lines it matched. */
  ghost predicate NoSkippedNewline(s: string, ms: seq<LineMatch>)
    requires InOrder(s, ms)
  {
    && (ms != [] ==> Newlines(s[..ms[0].start]) == 0)
    && forall j, k :: 0 <= j && k == j + 1 && k < |ms| ==> Newlines(s[End(ms[j])..ms[k].start]) == 0
  }

  /** One more match with no newline skipped before it keeps the two
      numberings equal. */
  lemma AgreeStep(s: string, pre: seq<LineMatch>, m: LineMatch, a: nat)
    requires forall j :: 0 <= j < |pre| ==> pre[j].start <= |s|
    requires a <= m.start && Located(s, m)
    requires FixedTokens(s, pre) == LineTokens(pre)
    requires Newlines(s[..a]) == Newlines(MatchedText(pre))
    requires Newlines(s[a..m.start]) == 0
    ensures FixedTokens(s, pre + [m]) == LineTokens(pre + [m])
    ensures Newlines(s[..End(m)]) == Newlines(MatchedText(pre + [m]))
  {
    LineAfterGap(s, pre, m, a);
    AgreeTokens(s, pre, m);
    NewlinesThrough(s, pre, m, a);
  }

  /** A match that no newline precedes since the end of `pre` starts on
      line 1 + the newlines of `pre`. */
  lemma LineAfterGap(s: string, pre: seq<LineMatch>, m: LineMatch, a: nat)
    requires a <= m.start <= |s|
    requires Newlines(s[..a]) == Newlines(MatchedText(pre))
    requires Newlines(s[a..m.start]) == 0
    ensures LineOf(s, m.start) == 1 + Newlines(MatchedText(pre))
  {
    NewlinesSplit(s, a, m.start);
  }

  /** Both numberings give one more match the same line when it starts on
      line 1 + the newlines of the earlier matches. */
  lemma AgreeTokens(s: string, pre: seq<LineMatch>, m: LineMatch)
    requires forall j :: 0 <= j < |pre| ==> pre[j].start <= |s|
    requires m.start <= |s|
    requires FixedTokens(s, pre) == LineTokens(pre)
    requires LineOf(s, m.start) == 1 + Newlines(MatchedText(pre))
    ensures FixedTokens(s, pre + [m]) == LineTokens(pre + [m])
  {
    FixedTokensSnoc(s, pre, m);
    LineTokensAppend(pre, m);
  }

  /** The corrected numbering of one more match. */
  lemma FixedTokensSnoc(s: string, pre: seq<LineMatch>, m: LineMatch)
    requires forall j :: 0 <= j < |pre| ==> pre[j].start <= |s|
    requires m.start <= |s|
    ensures FixedTokens(s, pre + [m]) == FixedTokens(s, pre) + MatchTokens(m, LineOf(s, m.start))
  {
    var ms := pre + [m];
    assert ms[..|ms| - 1] == pre && ms[|ms| - 1] == m;
  }

  /** The newlines up to the end of one more match, when none was skipped
      before it. */
  lemma NewlinesThrough(s: string, pre: seq<LineMatch>, m: LineMatch, a: nat)
    requires a <= m.start && Located(s, m)
    requires Newlines(s[..a]) == Newlines(MatchedText(pre))
    requires Newlines(s[a..m.start]) == 0
    ensures Newlines(s[..End(m)]) == Newlines(MatchedText(pre + [m]))
  {
    var before := MatchedText(pre);
    NewlinesSplit(s, a, m.start);
    NewlinesSplit(s, m.start, End(m));
    assert s[m.start..End(m)] == m.text;
    MatchedTextAppend(pre, m);
    NewlinesAppend(before, m.text);
  }

  /** The correction changes nothing when the search skips no newline:
      then the count before each match is the line the match starts on. */
  lemma {:induction false} FixedAgreesWithoutSkippedNewlines(s: string, ms: seq<LineMatch>)
    requires InOrder(s, ms) && NoSkippedNewline(s, ms)
    ensures FixedTokens(s, ms) == LineTokens(ms)
    ensures Newlines(s[..EndBefore(ms, |ms|)]) == Newlines(MatchedText(ms))
    decreases |ms|
  {
    if ms != [] {
      var pre, m := ms[..|ms| - 1], ms[|ms| - 1];
      DropLastKeepsOrder(s, ms);
      FixedAgreesWithoutSkippedNewlines(s, pre);
      var a := EndBefore(ms, |ms| - 1);
      GapBeforeLast(s, ms);
      AgreeStep(s, pre, m, a);
      assert ms == pre + [m];
      assert EndBefore(ms, |ms|) == End(m);
    } else {
      assert s[..0] == [];
    }
  }

  /** Dropping the last match keeps the matches in order and skipping no newline. */
  lemma DropLastKeepsOrder(s: string, ms: seq<LineMatch>)
    requires ms != [] && InOrder(s, ms) && NoSkippedNewline(s, ms)
    ensures InOrder(s, ms[..|ms| - 1]) && NoSkippedNewline(s, ms[..|ms| - 1])
  {
    var pre := ms[..|ms| - 1];
    assert forall j :: 0 <= j < |pre| ==> pre[j] == ms[j];
  }

  /** The last match starts after the end of the one before it, with no
      newline between them. */
  lemma GapBeforeLast(s: string, ms: seq<LineMatch>)
    requires ms != [] && InOrder(s, ms) && NoSkippedNewline(s, ms)
    ensures var a, m := EndBefore(ms, |ms| - 1), ms[|ms| - 1];
            a == EndBefore(ms[..|ms| - 1], |ms| - 1)
            && a <= m.start && Located(s, m) && Newlines(s[a..m.start]) == 0
  {
    if |ms| > 1 {
      assert End(ms[|ms| - 2]) <= ms[|ms| - 1].start;
    }
  }
}
