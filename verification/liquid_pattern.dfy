/**
 * LIQUID_EXPRESSION_RE of liquid/lex.py and the search that `finditer`
 * performs with it over the body of a "liquid" tag.
 *
 * The pattern is unanchored: tried at a position, it skips spaces and tabs,
 * needs a word there, and then takes the rest of the line. `finditer` tries
 * it at each position from the start of the body; where it matches it
 * reports the match and resumes after it, otherwise it moves on by one
 * character. A line that holds no word is passed over, and a line that
 * starts with other characters is matched from its first word on.
 */
module LiquidPattern {
  import opened Tokens
  import opened Patterns
  /** One match: where it starts in the body, its whole text, and its
      `name` and `expr` groups. */
  datatype LineMatch = LineMatch(start: nat, text: string, name: string, expr: string)

  /** Where the match ends in the body. */
  function End(m: LineMatch): nat { m.start + |m.text| }

  /** `m` is the slice of `s` it claims to be. */
  predicate Located(s: string, m: LineMatch)
  {
    m.start + |m.text| <= |s| && m.text == s[m.start..m.start + |m.text|]
  }

  /** Past the run of spaces and tabs (`[ \t]*`) that starts at `i`. */
  function SkipBlanks(s: string, i: nat): (j: nat)
    requires i <= |s|
    ensures i <= j <= |s|
    decreases |s| - i
  {
    if i < |s| && (s[i] == ' ' || s[i] == '\t') then SkipBlanks(s, i + 1) else i
  }

  /** Past the run of word characters (`\w*`) that starts at `i`. */
  function WordEnd(s: string, i: nat): (j: nat)
    requires i <= |s|
    ensures i <= j <= |s|
    ensures forall k :: i <= k < j ==> IsWordChar(s[k])
    decreases |s| - i
  {
    if i < |s| && IsWordChar(s[i]) then WordEnd(s, i + 1) else i
  }

  /** The first '\n' at or after `x`, or the end of the body. */
  function EndOfLine(s: string, x: nat): (e: nat)
    requires x <= |s|
    ensures x <= e <= |s| && (e == |s| || s[e] == '\n')
    ensures forall k :: x <= k < e ==> s[k] != '\n'
    decreases |s| - x
  {
    if x == |s| || s[x] == '\n' then x else EndOfLine(s, x + 1)
  }

  /** LIQUID_EXPRESSION_RE, `[ \t]*(?P<name>\w+)[ \t]*(?P<expr>.*)[ \t]*?(\n|$)`,
      tried at position `p`. It matches exactly when a word character
      follows the leading blanks; the greedy `.*` then takes the rest of the
      line, so the lazy `[ \t]*?` takes nothing and the match ends after the
      line's '\n' or at the end of the body. */
  function LineAt(s: string, p: nat): (r: Option<LineMatch>)
    requires p <= |s|
    ensures r.Some? <==> SkipBlanks(s, p) < |s| && IsWordChar(s[SkipBlanks(s, p)])
    ensures r.Some? ==> r.value.start == p && |r.value.text| > 0 && Located(s, r.value)
  {
    var w := SkipBlanks(s, p);
    if w < |s| && IsWordChar(s[w]) then
      var e := WordEnd(s, w);
      var x := SkipBlanks(s, e);
      var eol := EndOfLine(s, x);
      var end := if eol < |s| then eol + 1 else eol;
      Some(LineMatch(p, s[p..end], s[w..e], s[x..eol]))
    else None
  }

  /** Position `q` lies inside one of the matches. */
  predicate Covered(ms: seq<LineMatch>, q: nat)
  {
    exists j :: 0 <= j < |ms| && ms[j].start <= q < End(ms[j])
  }

  /** `finditer` from position `p`: a match where the pattern matches,
      otherwise the search moves on by one character. The matches lie in
      the body, in order, without overlapping. */
  function Search(s: string, p: nat): (ms: seq<LineMatch>)
    requires p <= |s|
    ensures forall j :: 0 <= j < |ms| ==> p <= ms[j].start && |ms[j].text| > 0 && Located(s, ms[j])
    ensures forall j, k :: 0 <= j < k < |ms| ==> End(ms[j]) <= ms[k].start
    decreases |s| - p
  {
    if p == |s| then []
    else match LineAt(s, p)
      case Some(m) => [m] + Search(s, End(m))
      case None => Search(s, p + 1)
  }
}

/**
 * What the search promises: it reports exactly the matches `finditer`
 * reports, each what the pattern matches at its start, and passes over no
 * position where the pattern would match.
 */
module LiquidSearch {
  import opened Tokens
  import opened Patterns
  import opened LiquidPattern

  /** Each match the search reports is what the pattern matches at its
      start. */
  lemma {:induction false} SearchMatchesAt(s: string, p: nat)
    requires p <= |s|
    ensures var ms := Search(s, p);
            forall j :: 0 <= j < |ms| ==> ms[j].start <= |s| && LineAt(s, ms[j].start) == Some(ms[j])
    decreases |s| - p
  {
    if p < |s| {
      var ms := Search(s, p);
      if LineAt(s, p).Some? {
        var m := LineAt(s, p).value;
        SearchHit(s, p);
        var rest := Search(s, End(m));
        SearchMatchesAt(s, End(m));
        forall j | 0 <= j < |ms|
          ensures ms[j].start <= |s| && LineAt(s, ms[j].start) == Some(ms[j])
        {
          if j == 0 {
            assert ms[0] == m && m.start == p;
          } else {
            ReportedShift(s, ms, m, rest, j);
          }
        }
      } else {
        SearchMiss(s, p);
        SearchMatchesAt(s, p + 1);
      }
    }
  }

  /** A match reported after the first keeps its report. */
  lemma ReportedShift(s: string, ms: seq<LineMatch>, m: LineMatch, rest: seq<LineMatch>, j: nat)
    requires ms == [m] + rest && 0 < j <= |rest|
    requires rest[j - 1].start <= |s| && LineAt(s, rest[j - 1].start) == Some(rest[j - 1])
    ensures ms[j].start <= |s| && LineAt(s, ms[j].start) == Some(ms[j])
  {
    assert ms[j] == rest[j - 1];
  }

  /** Where the pattern matches, the search reports that match and goes on
      after it. */
  lemma SearchHit(s: string, p: nat)
    requires p < |s| && LineAt(s, p).Some?
    ensures Search(s, p) == [LineAt(s, p).value] + Search(s, End(LineAt(s, p).value))
  {
  }

  /** Where the pattern does not match, the search moves on by one. */
  lemma SearchMiss(s: string, p: nat)
    requires p < |s| && LineAt(s, p).None?
    ensures Search(s, p) == Search(s, p + 1)
  {
  }

  /** The search passes over no match of the pattern: at every position
      from `p` on that no reported match covers, the pattern does not match,
      so no line holding a word is left out. */
  lemma {:induction false} SearchSkipsNoMatch(s: string, p: nat)
    requires p <= |s|
    ensures forall q :: p <= q < |s| ==> Covered(Search(s, p), q) || LineAt(s, q).None?
    decreases |s| - p
  {
    if p < |s| {
      var ms := Search(s, p);
      if LineAt(s, p).Some? {
        var m := LineAt(s, p).value;
        SearchHit(s, p);
        var rest := Search(s, End(m));
        SearchSkipsNoMatch(s, End(m));
        forall q | p <= q < |s|
          ensures Covered(ms, q) || LineAt(s, q).None?
        {
          if q < End(m) {
            CoveredHead(m, rest, q);
          } else if Covered(rest, q) {
            CoveredTail(m, rest, q);
          }
        }
      } else {
        SearchMiss(s, p);
        SearchSkipsNoMatch(s, p + 1);
      }
    }
  }

  lemma CoveredHead(m: LineMatch, rest: seq<LineMatch>, q: nat)
    requires m.start <= q < End(m)
    ensures Covered([m] + rest, q)
  {
    assert ([m] + rest)[0] == m;
  }

  lemma CoveredTail(m: LineMatch, rest: seq<LineMatch>, q: nat)
    requires Covered(rest, q)
    ensures Covered([m] + rest, q)
  {
    var j :| 0 <= j < |rest| && rest[j].start <= q < End(rest[j]);
    assert ([m] + rest)[j + 1] == rest[j];
  }

  /** Spaces and tabs only. */
  predicate Blanks(b: string)
  {
    forall k :: 0 <= k < |b| ==> b[k] == ' ' || b[k] == '\t'
  }

  /** The parts the pattern splits a match into: leading blanks, the word
      `name`, blanks, the rest of the line `expr`, and the line end `t`. */
  predicate Shaped(s: string, m: LineMatch, b1: string, b2: string, t: string)
  {
    && m.text == b1 + m.name + b2 + m.expr + t
    && Blanks(b1) && Blanks(b2)
    && m.name != [] && (forall k :: 0 <= k < |m.name| ==> IsWordChar(m.name[k]))
    && (b2 + m.expr + t == [] || !IsWordChar((b2 + m.expr + t)[0]))
    && '\n' !in m.expr && (m.expr == [] || (m.expr[0] != ' ' && m.expr[0] != '\t'))
    && (t == "\n" || (t == [] && End(m) == |s|))
    && Newlines(m.text) == |t|
  }

  /** A match is leading blanks, a whole word, blanks, and the rest of its
      line with no newline in it, ended by the line's '\n' or by the end of
      the body; so it holds one newline at most. */
  lemma LineAtShape(s: string, p: nat)
    requires p <= |s| && LineAt(s, p).Some?
    ensures exists b1, b2, t :: Shaped(s, LineAt(s, p).value, b1, b2, t)
  {
    var m := LineAt(s, p).value;
    var w := SkipBlanks(s, p);
    var e := WordEnd(s, w);
    var x := SkipBlanks(s, e);
    var eol := EndOfLine(s, x);
    var end := if eol < |s| then eol + 1 else eol;
    assert m == LineMatch(p, s[p..end], s[w..e], s[x..eol]);
    SkipBlanksSpan(s, p);
    SkipBlanksSpan(s, e);
    WordEndStops(s, w);
    ShapeFromCuts(s, m, p, w, e, x, eol, end);
  }

  /** The shape of a match from the positions where its parts begin. */
  lemma ShapeFromCuts(s: string, m: LineMatch, p: nat, w: nat, e: nat, x: nat, eol: nat, end: nat)
    requires p <= w < e <= x <= eol <= end <= |s|
    requires m == LineMatch(p, s[p..end], s[w..e], s[x..eol])
    requires forall k :: p <= k < w ==> s[k] == ' ' || s[k] == '\t'
    requires forall k :: w <= k < e ==> IsWordChar(s[k])
    requires e == |s| || !IsWordChar(s[e])
    requires forall k :: e <= k < x ==> s[k] == ' ' || s[k] == '\t'
    requires x == |s| || (s[x] != ' ' && s[x] != '\t')
    requires forall k :: x <= k < eol ==> s[k] != '\n'
    requires (eol < |s| && s[eol] == '\n' && end == eol + 1) || (eol == |s| && end == eol)
    ensures Shaped(s, m, s[p..w], s[e..x], s[eol..end])
  {
    var b1, b2, t := s[p..w], s[e..x], s[eol..end];
    SliceBlanks(s, p, w);
    SliceBlanks(s, e, x);
    SliceWord(s, w, e);
    SliceLine(s, x, eol);
    SplitFive(s, p, w, e, x, eol, end);
    SplitTail(s, e, x, eol, end);
    assert t == [] || t == "\n" by {
      if t != [] {
        assert t[0] == s[eol];
      }
    }
    NewlinesParts(b1, m.name, b2, m.expr, t);
  }

  lemma SplitTail(s: string, e: nat, x: nat, eol: nat, end: nat)
    requires e <= x <= eol <= end <= |s|
    ensures s[e..end] == s[e..x] + s[x..eol] + s[eol..end]
    ensures e < end ==> s[e..end][0] == s[e]
  {
    assert s[e..end] == s[e..x] + s[x..end];
    assert s[x..end] == s[x..eol] + s[eol..end];
  }

  /** Parts without a newline, ended by at most one '\n'. */
  lemma NewlinesParts(b1: string, name: string, b2: string, expr: string, t: string)
    requires forall k :: 0 <= k < |b1| ==> b1[k] != '\n'
    requires forall k :: 0 <= k < |name| ==> name[k] != '\n'
    requires forall k :: 0 <= k < |b2| ==> b2[k] != '\n'
    requires forall k :: 0 <= k < |expr| ==> expr[k] != '\n'
    requires t == [] || t == "\n"
    ensures Newlines(b1 + name + b2 + expr + t) == |t|
  {
    NewlinesAppend(b1 + name + b2 + expr, t);
    NewlinesAppend(b1 + name + b2, expr);
    NewlinesAppend(b1 + name, b2);
    NewlinesAppend(b1, name);
    NewlinesNone(b1);
    NewlinesNone(name);
    NewlinesNone(b2);
    NewlinesNone(expr);
    if t != [] {
      assert t[1..] == [];
    }
  }

  lemma {:induction false} SkipBlanksSpan(s: string, i: nat)
    requires i <= |s|
    ensures var j := SkipBlanks(s, i);
            && (forall k :: i <= k < j ==> s[k] == ' ' || s[k] == '\t')
            && (j == |s| || (s[j] != ' ' && s[j] != '\t'))
    decreases |s| - i
  {
    if i < |s| && (s[i] == ' ' || s[i] == '\t') {
      SkipBlanksSpan(s, i + 1);
    }
  }

  lemma {:induction false} WordEndStops(s: string, i: nat)
    requires i <= |s|
    ensures WordEnd(s, i) == |s| || !IsWordChar(s[WordEnd(s, i)])
    decreases |s| - i
  {
    if i < |s| && IsWordChar(s[i]) {
      WordEndStops(s, i + 1);
    }
  }

  lemma SliceBlanks(s: string, i: nat, j: nat)
    requires i <= j <= |s| && forall k :: i <= k < j ==> s[k] == ' ' || s[k] == '\t'
    ensures Blanks(s[i..j]) && forall k :: 0 <= k < j - i ==> s[i..j][k] != '\n'
  {
    forall k | 0 <= k < j - i
      ensures s[i..j][k] == ' ' || s[i..j][k] == '\t'
    {
      assert s[i..j][k] == s[i + k];
    }
  }

  lemma SliceWord(s: string, i: nat, j: nat)
    requires i <= j <= |s| && forall k :: i <= k < j ==> IsWordChar(s[k])
    ensures forall k :: 0 <= k < j - i ==> IsWordChar(s[i..j][k]) && s[i..j][k] != '\n'
  {
    forall k | 0 <= k < j - i
      ensures IsWordChar(s[i..j][k])
    {
      assert s[i..j][k] == s[i + k];
    }
  }

  lemma SliceLine(s: string, i: nat, j: nat)
    requires i <= j <= |s| && forall k :: i <= k < j ==> s[k] != '\n'
    ensures forall k :: 0 <= k < j - i ==> s[i..j][k] != '\n'
    ensures '\n' !in s[i..j]
  {
    forall k | 0 <= k < j - i
      ensures s[i..j][k] != '\n'
    {
      assert s[i..j][k] == s[i + k];
    }
  }

  lemma SplitFive(s: string, a: nat, b: nat, c: nat, d: nat, e: nat, f: nat)
    requires a <= b <= c <= d <= e <= f <= |s|
    ensures s[a..f] == s[a..b] + s[b..c] + s[c..d] + s[d..e] + s[e..f]
  {
    assert s[a..f] == s[a..b] + s[b..f];
    assert s[b..f] == s[b..c] + s[c..f];
    assert s[c..f] == s[c..d] + s[d..f];
    assert s[d..f] == s[d..e] + s[e..f];
  }
}
