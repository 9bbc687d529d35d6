/**
 * The rule tables of the expression grammars and a first-match-wins scanner
 * over them. A rule table is an ordered list of (kind, pattern); at each
 * position the scanner reports the first rule whose pattern matches there,
 * which is what a Python alternation `(?P<A>..)|(?P<B>..)|...` compiled with
 * DOTALL does under `finditer`. Every table ends with a catch-all rule, so
 * scanning never stalls and the matches tile the whole source.
 *
 * The scanner is stated over any matcher; `Patterns.Compiled` is the one the
 * tables use. Its lemmas need only the few facts about the matcher they name.
 */
module Rules {
  import opened Tokens
  import opened Patterns

  datatype Rule = Rule(kind: Kind, pattern: Pattern)

  /** One match reported by the scanner: the rule that won, the text it
      consumed and its inner group. */
  datatype Match = Match(rule: Kind, text: string, inner: string)

  /** A hit counts only if it consumes between one character and the rest
      of the source. */
  function Within(r: Option<Hit>, s: string, i: nat): (w: Option<Hit>)
    ensures w.Some? ==> r == w && 0 < w.value.len && i + w.value.len <= |s|
    ensures r.Some? && 0 < r.value.len && i + r.value.len <= |s| ==> w == r
  {
    if r.Some? && 0 < r.value.len && i + r.value.len <= |s| then r else None
  }

  /** The first rule, from index `j` on, that matches at `i`: its index and hit. */
  function FirstMatch(rules: seq<Rule>, j: nat, s: string, i: nat, matcher: Matcher): (r: Option<(nat, Hit)>)
    ensures r.Some? ==> j <= r.value.0 < |rules| && 0 < r.value.1.len && i + r.value.1.len <= |s|
    decreases |rules| - j
  {
    if j >= |rules| then None
    else match Within(matcher(rules[j].pattern, s, i), s, i)
      case Some(h) => Some((j, h))
      case None => FirstMatch(rules, j + 1, s, i, matcher)
  }

  /** First match wins: the reported rule matches with the reported hit,
      no earlier rule matches, and nothing is reported only when no rule
      matches at all. */
  lemma {:induction false} FirstMatchWins(rules: seq<Rule>, j: nat, s: string, i: nat, matcher: Matcher)
    ensures var r := FirstMatch(rules, j, s, i, matcher);
            && (r.Some? ==> Within(matcher(rules[r.value.0].pattern, s, i), s, i) == Some(r.value.1))
            && (r.Some? ==> forall k :: j <= k < r.value.0 ==> Within(matcher(rules[k].pattern, s, i), s, i).None?)
            && (r.None? <==> forall k :: j <= k < |rules| ==> Within(matcher(rules[k].pattern, s, i), s, i).None?)
    decreases |rules| - j
  {
    if j < |rules| && Within(matcher(rules[j].pattern, s, i), s, i).None? {
      FirstMatchWins(rules, j + 1, s, i, matcher);
    }
  }

  /** The table ends with the catch-all `.` rule. */
  predicate CatchAll(rules: seq<Rule>)
  {
    |rules| > 0 && rules[|rules| - 1].pattern == AnyChar
  }

  /** With a catch-all rule some rule always matches before the end. */
  lemma CatchAllMatches(rules: seq<Rule>, s: string, i: nat, matcher: Matcher)
    requires CatchAll(rules) && MatchesAnyChar(matcher) && i < |s|
    ensures FirstMatch(rules, 0, s, i, matcher).Some?
  {
    FirstMatchWins(rules, 0, s, i, matcher);
    assert Within(matcher(rules[|rules| - 1].pattern, s, i), s, i).Some?;
  }

  /** `finditer` over the table from position `i`: the first rule that
      matches, then the rest of the source after its text; where no rule
      matches, the search moves on by one character. With a catch-all rule
      some rule always matches before the end (CatchAllMatches), so the
      tables of this model never skip a character. Every match consumes at
      least one character, so there are no more matches than characters. */
  function Scan(rules: seq<Rule>, s: string, i: nat, matcher: Matcher): (ms: seq<Match>)
    requires i <= |s|
    ensures |ms| <= |s| - i
    ensures forall k :: 0 <= k < |ms| ==> ms[k].text != []
    decreases |s| - i
  {
    if i == |s| then []
    else match FirstMatch(rules, 0, s, i, matcher)
      case None => Scan(rules, s, i + 1, matcher)
      case Some((k, h)) =>
        [Match(rules[k].kind, s[i..i + h.len], h.inner)] + Scan(rules, s, i + h.len, matcher)
  }

  /** Concatenation of the texts of a match sequence. */
  function Texts(ms: seq<Match>): string
  {
    if ms == [] then [] else ms[0].text + Texts(ms[1..])
  }

  lemma {:induction false} TextsAppend(ms: seq<Match>, m: Match)
    ensures Texts(ms + [m]) == Texts(ms) + m.text
  {
    if ms == [] {
      assert ms + [m] == [m];
      assert [m][1..] == [];
    } else {
      assert (ms + [m])[1..] == ms[1..] + [m];
      TextsAppend(ms[1..], m);
    }
  }

  /** Number of matches of rule `k`. */
  function Count(ms: seq<Match>, k: Kind): (n: nat)
    ensures n <= |ms|
  {
    if ms == [] then 0 else (if ms[0].rule == k then 1 else 0) + Count(ms[1..], k)
  }

  lemma {:induction false} CountAppend(ms: seq<Match>, m: Match, k: Kind)
    ensures Count(ms + [m], k) == Count(ms, k) + (if m.rule == k then 1 else 0)
  {
    if ms == [] {
      assert ms + [m] == [m];
      assert [m][1..] == [];
    } else {
      assert (ms + [m])[1..] == ms[1..] + [m];
      CountAppend(ms[1..], m, k);
    }
  }

  /** One step of the scan: the winning rule and what it consumed. */
  lemma ScanStep(rules: seq<Rule>, s: string, i: nat, matcher: Matcher) returns (k: nat, h: Hit)
    requires CatchAll(rules) && MatchesAnyChar(matcher) && i < |s|
    ensures k < |rules| && Within(matcher(rules[k].pattern, s, i), s, i) == Some(h)
    ensures 0 < h.len <= |s| - i
    ensures Scan(rules, s, i, matcher)
            == [Match(rules[k].kind, s[i..i + h.len], h.inner)] + Scan(rules, s, i + h.len, matcher)
  {
    CatchAllMatches(rules, s, i, matcher);
    FirstMatchWins(rules, 0, s, i, matcher);
    var r := FirstMatch(rules, 0, s, i, matcher);
    k, h := r.value.0, r.value.1;
  }

  /** The matches tile the source: their texts, in order, are exactly what
      follows position `i`. */
  lemma {:induction false} ScanCovers(rules: seq<Rule>, s: string, i: nat, matcher: Matcher)
    requires CatchAll(rules) && MatchesAnyChar(matcher) && i <= |s|
    ensures Texts(Scan(rules, s, i, matcher)) == s[i..]
    decreases |s| - i
  {
    var ms := Scan(rules, s, i, matcher);
    if i < |s| {
      var k, h := ScanStep(rules, s, i, matcher);
      var rest := Scan(rules, s, i + h.len, matcher);
      ScanCovers(rules, s, i + h.len, matcher);
      assert ms[0].text == s[i..i + h.len] && ms[1..] == rest;
      assert Texts(ms) == s[i..i + h.len] + Texts(rest);
      assert s[i..] == s[i..i + h.len] + s[i + h.len..];
    } else {
      assert ms == [];
    }
  }

  /** What a match of a well-formed table looks like: a STRING is its inner
      group between two equal quotes that the inner group does not contain,
      so dropping the quotes loses nothing; SKIP whitespace holds no newline;
      a NEWLINE is one '\n'; and the rule is not a derived kind. */
  predicate ShapedMatch(m: Match)
  {
    && (m.rule == String ==> Unquotes(m.text, m.inner))
    && (m.rule == Skip ==> '\n' !in m.text)
    && (m.rule == Newline ==> m.text == "\n")
    && RuleKind(m.rule)
  }

  /** The match a single rule of a well-formed table reports is shaped. */
  lemma HitShaped(rules: seq<Rule>, s: string, i: nat, matcher: Matcher, k: nat, h: Hit)
    requires WellFormedTable(rules) && SoundMatcher(matcher) && i <= |s|
    requires k < |rules| && Within(matcher(rules[k].pattern, s, i), s, i) == Some(h)
    ensures ShapedMatch(Match(rules[k].kind, s[i..i + h.len], h.inner))
  {
    var r := rules[k];
    if r.kind == Skip {
      var text := s[i..i + h.len];
      forall c | c in text ensures c != '\n' {
        var j :| 0 <= j < h.len && text[j] == c;
        assert s[i + j] in r.pattern.members;
      }
    }
  }

  /** Every match the scanner reports over a well-formed table is shaped. */
  lemma {:induction false} ScanShaped(rules: seq<Rule>, s: string, i: nat, matcher: Matcher)
    requires WellFormedTable(rules) && SoundMatcher(matcher) && i <= |s|
    ensures forall k :: 0 <= k < |Scan(rules, s, i, matcher)| ==> ShapedMatch(Scan(rules, s, i, matcher)[k])
    decreases |s| - i
  {
    if i < |s| {
      var k, h := ScanStep(rules, s, i, matcher);
      ScanShaped(rules, s, i + h.len, matcher);
      HitShaped(rules, s, i, matcher, k, h);
      ShapedCons(Match(rules[k].kind, s[i..i + h.len], h.inner), Scan(rules, s, i + h.len, matcher));
    }
  }

  lemma ShapedCons(m: Match, rest: seq<Match>)
    requires ShapedMatch(m) && forall k :: 0 <= k < |rest| ==> ShapedMatch(rest[k])
    ensures forall k :: 0 <= k < |[m] + rest| ==> ShapedMatch(([m] + rest)[k])
  {
  }

  /** The kinds a rule table can name: not the ones the emission loops
      derive from a match. */
  predicate RuleKind(k: Kind)
  {
    !k.Keyword? && !k.Operator?
  }

  /** A rule as every table of the model writes it: STRING uses
      STRING_PATTERN, SKIP is a character class without '\n', NEWLINE is
      "\n", and no rule is named by a derived kind. */
  predicate WellFormedRule(r: Rule)
  {
    && (r.kind == String ==> r.pattern == Quoted)
    && (r.kind == Skip ==> r.pattern.Chars? && '\n' !in r.pattern.members)
    && (r.kind == Newline ==> r.pattern == Lit("\n"))
    && RuleKind(r.kind)
  }

  /** A table of well-formed rules ending with the catch-all. */
  predicate WellFormedTable(rules: seq<Rule>)
  {
    CatchAll(rules) && forall j :: 0 <= j < |rules| ==> WellFormedRule(rules[j])
  }

  // ---------------------------------------------------------------------
  // The rule tables of liquid/lex.py

  const IdentifierRules: seq<Rule> := [
    Rule(Integer, Digits),
    Rule(String, Quoted),
    Rule(Identifier, Word(IdentTail(false))),
    Rule(Dot, Lit(".")),
    Rule(LBracket, Lit("[")),
    Rule(RBracket, Lit("]")),
    Rule(Newline, Lit("\n")),
    Rule(Skip, Chars(" \t")),
    Rule(Illegal, AnyChar)
  ]

  const FilteredExpressionRules: seq<Rule> := [
    Rule(Float, Decimal),
    Rule(Integer, Digits),
    Rule(Negative, Lit("-")),
    Rule(String, Quoted),
    Rule(Identifier, Word(IdentTail(false))),
    Rule(Dot, Lit(".")),
    Rule(Comma, Lit(",")),
    Rule(LBracket, Lit("[")),
    Rule(RBracket, Lit("]")),
    Rule(Colon, Lit(":")),
    Rule(Pipe, Lit("|")),
    Rule(Newline, Lit("\n")),
    Rule(Skip, Chars(" \t")),
    Rule(Illegal, AnyChar)
  ]

  const AssignmentExpressionRules: seq<Rule> := [Rule(Assign, Lit("="))] + FilteredExpressionRules

  const BooleanExpressionRules: seq<Rule> := [
    Rule(Float, Decimal),
    Rule(Integer, Digits),
    Rule(Negative, Lit("-")),
    Rule(String, Quoted),
    Rule(Identifier, Word(IdentTail(true))),
    Rule(Dot, Lit(".")),
    Rule(LBracket, Lit("[")),
    Rule(RBracket, Lit("]")),
    Rule(Colon, Lit(":")),
    Rule(Newline, Lit("\n")),
    Rule(Op, OpChars),
    Rule(Skip, Chars(" \t")),
    Rule(Illegal, AnyChar)
  ]

  const LoopExpressionRules: seq<Rule> := [
    Rule(Integer, Digits),
    Rule(Identifier, Word(IdentTail(false))),
    Rule(Range, Lit("..")),
    Rule(Dot, Lit(".")),
    Rule(LBracket, Lit("[")),
    Rule(RBracket, Lit("]")),
    Rule(LParen, Lit("(")),
    Rule(RParen, Lit(")")),
    Rule(Colon, Lit(":")),
    Rule(Newline, Lit("\n")),
    Rule(Skip, Chars(" \t")),
    Rule(Illegal, AnyChar)
  ]

  const IncludeExpressionRules: seq<Rule> := [
    Rule(Float, Decimal),
    Rule(Integer, Digits),
    Rule(Negative, Lit("-")),
    Rule(String, Quoted),
    Rule(Identifier, Word(IdentTail(true))),
    Rule(Dot, Lit(".")),
    Rule(Comma, Lit(",")),
    Rule(LBracket, Lit("[")),
    Rule(RBracket, Lit("]")),
    Rule(Colon, Lit(":")),
    Rule(Newline, Lit("\n")),
    Rule(Skip, Chars(" \t")),
    Rule(Illegal, AnyChar)
  ]

  const FilteredExpressionKeywords: set<string> := {"true", "false", "nil", "empty"}
  const BooleanExpressionKeywords: set<string> := FilteredExpressionKeywords + {"and", "or", "contains"}
  const LoopExpressionKeywords: set<string> := {"in", "offset", "limit", "reversed", "cols"}
  const IncludeExpressionKeywords: set<string> := FilteredExpressionKeywords + {"with", "for", "as"}

  /** The seven configurations of the generic emission loop. */
  datatype Grammar =
    | IdentifierGrammar | LoopGrammar | FilteredGrammar | AssignmentGrammar
    | BooleanGrammar | IncludeGrammar | PaginateGrammar

  function RulesOf(g: Grammar): (rules: seq<Rule>)
    ensures WellFormedTable(rules)
  {
    match g
    case IdentifierGrammar => IdentifierRulesWellFormed(); IdentifierRules
    case LoopGrammar => LoopExpressionRulesWellFormed(); LoopExpressionRules
    case FilteredGrammar => FilteredExpressionRulesWellFormed(); FilteredExpressionRules
    case AssignmentGrammar => AssignmentExpressionRulesWellFormed(); AssignmentExpressionRules
    case BooleanGrammar => BooleanExpressionRulesWellFormed(); BooleanExpressionRules
    case IncludeGrammar => IncludeExpressionRulesWellFormed(); IncludeExpressionRules
    case PaginateGrammar => IdentifierRulesWellFormed(); IdentifierRules
  }

  lemma IdentifierRulesWellFormed() ensures WellFormedTable(IdentifierRules) {}
  lemma LoopExpressionRulesWellFormed() ensures WellFormedTable(LoopExpressionRules) {}
  lemma FilteredExpressionRulesWellFormed() ensures WellFormedTable(FilteredExpressionRules) {}
  lemma BooleanExpressionRulesWellFormed() ensures WellFormedTable(BooleanExpressionRules) {}
  lemma IncludeExpressionRulesWellFormed() ensures WellFormedTable(IncludeExpressionRules) {}

  lemma AssignmentExpressionRulesWellFormed()
    ensures WellFormedTable(AssignmentExpressionRules)
  {
    FilteredExpressionRulesWellFormed();
    var rules := AssignmentExpressionRules;
    forall j | 0 <= j < |rules| ensures WellFormedRule(rules[j]) {
      if j > 0 {
        assert rules[j] == FilteredExpressionRules[j - 1];
      }
    }
  }

  function KeywordsOf(g: Grammar): set<string>
  {
    match g
    case IdentifierGrammar => {}
    case LoopGrammar => LoopExpressionKeywords
    case FilteredGrammar => FilteredExpressionKeywords
    case AssignmentGrammar => FilteredExpressionKeywords
    case BooleanGrammar => BooleanExpressionKeywords
    case IncludeGrammar => IncludeExpressionKeywords
    case PaginateGrammar => {"by"}
  }

  // ---------------------------------------------------------------------
  // The rule table of liquid/expressions/loop/lex.py

  const LoopTokenRules: seq<Rule> := [
    Rule(IdentIndex, Imported("IDENTINDEX")),
    Rule(IdentString, Imported("IDENTSTRING")),
    Rule(Range, Lit("..")),
    Rule(Float, SignedFloat),
    Rule(Integer, SignedInteger),
    Rule(Dot, Lit(".")),
    Rule(Identifier, Imported("IDENTIFIER")),
    Rule(LParen, Lit("(")),
    Rule(RParen, Lit(")")),
    Rule(LBracket, Lit("[")),
    Rule(RBracket, Lit("]")),
    Rule(Colon, Lit(":")),
    Rule(Pipe, Lit("|")),
    Rule(Newline, Lit("\n")),
    Rule(Skip, Chars(" \t\r")),
    Rule(Illegal, AnyChar)
  ]

  lemma LoopTokenRulesWellFormed()
    ensures WellFormedTable(LoopTokenRules)
  {
  }

  /** The two imported patterns tried before RANGE, FLOAT and INTEGER, the
      indexed and the quoted identifier, do not start at a digit or a dot. */
  ghost predicate ImportsStartWithName(imports: Imports)
  {
    forall s: string, i: nat ::
      i < |s| && (IsDigit(s[i]) || s[i] == '.') ==>
        imports("IDENTINDEX", s, i).None? && imports("IDENTSTRING", s, i).None?
  }

  predicate AllDigits(s: string)
  {
    s != [] && forall k :: 0 <= k < |s| ==> IsDigit(s[k])
  }

  /** At a digit run that the end or `..` follows, the loop-expression
      table picks INTEGER: the imported identifier patterns and RANGE do not
      start at a digit, and FLOAT refuses the `.` that another `.` follows. */
  lemma IntegerBeforeRange(s: string, i: nat, n: nat, imports: Imports)
    requires ImportsStartWithName(imports)
    requires 0 < n && i + n <= |s|
    requires forall k :: i <= k < i + n ==> IsDigit(s[k])
    requires i + n == |s| || (i + n + 1 < |s| && s[i + n] == '.' && s[i + n + 1] == '.')
    ensures FirstMatch(LoopTokenRules, 0, s, i, Compiled(imports)) == Some((4, Hit(n, "")))
  {
    var rules := LoopTokenRules;
    var m := Compiled(imports);
    LoopHeadMisses(s, i, imports);
    assert Within(m(rules[3].pattern, s, i), s, i).None? && Within(m(rules[4].pattern, s, i), s, i) == Some(Hit(n, ""))
    by {
      DigitRunIsInteger(s, i, n, imports);
    }
    FirstMatchHere(rules, 4, s, i, m, Hit(n, ""));
    FirstMatchSkip(rules, 3, s, i, m);
    FirstMatchSkip(rules, 2, s, i, m);
    FirstMatchSkip(rules, 1, s, i, m);
    FirstMatchSkip(rules, 0, s, i, m);
  }

  /** At a digit, neither imported identifier pattern nor RANGE matches. */
  lemma LoopHeadMisses(s: string, i: nat, imports: Imports)
    requires ImportsStartWithName(imports)
    requires i < |s| && IsDigit(s[i])
    ensures forall j :: 0 <= j < 3 ==> Within(Compiled(imports)(LoopTokenRules[j].pattern, s, i), s, i).None?
  {
    var rules := LoopTokenRules;
    var m := Compiled(imports);
    assert Within(m(rules[0].pattern, s, i), s, i).None? && Within(m(rules[1].pattern, s, i), s, i).None?
    by {
      ImportedNone(imports, "IDENTINDEX", s, i);
      ImportedNone(imports, "IDENTSTRING", s, i);
    }
    assert Within(m(rules[2].pattern, s, i), s, i).None? by {
      if i + 2 <= |s| { assert s[i..i + 2][0] == s[i]; }
    }
  }

  /** At `..` the loop-expression table picks RANGE. */
  lemma RangeBeforeDot(s: string, i: nat, imports: Imports)
    requires ImportsStartWithName(imports)
    requires i + 1 < |s| && s[i] == '.' && s[i + 1] == '.'
    ensures FirstMatch(LoopTokenRules, 0, s, i, Compiled(imports)) == Some((2, Hit(2, "")))
  {
    var rules := LoopTokenRules;
    var m := Compiled(imports);
    assert s[i..i + 2] == "..";
    FirstMatchHere(rules, 2, s, i, m, Hit(2, ""));
    FirstMatchSkip(rules, 1, s, i, m);
    FirstMatchSkip(rules, 0, s, i, m);
  }

  /** The indexed and the quoted identifier do not match at a digit or a dot. */
  lemma ImportedNone(imports: Imports, name: string, s: string, i: nat)
    requires ImportsStartWithName(imports) && i < |s| && (IsDigit(s[i]) || s[i] == '.')
    requires name == "IDENTINDEX" || name == "IDENTSTRING"
    ensures Compiled(imports)(Imported(name), s, i).None?
  {
    assert imports(name, s, i).None?;
  }

  /** A rule that does not match hands the choice to the rules after it. */
  lemma FirstMatchSkip(rules: seq<Rule>, j: nat, s: string, i: nat, m: Matcher)
    requires j < |rules| && Within(m(rules[j].pattern, s, i), s, i).None?
    ensures FirstMatch(rules, j, s, i, m) == FirstMatch(rules, j + 1, s, i, m)
  {
  }

  /** A rule that matches is the choice from its own index on. */
  lemma FirstMatchHere(rules: seq<Rule>, j: nat, s: string, i: nat, m: Matcher, h: Hit)
    requires j < |rules| && Within(m(rules[j].pattern, s, i), s, i) == Some(h)
    ensures FirstMatch(rules, j, s, i, m) == Some((j, h))
  {
  }

  /** A digit run, `..` and a digit run, with the `..` at index `n`. */
  predicate RangeSource(s: string, n: nat)
  {
    0 < n && n + 2 < |s| && s[n] == '.' && s[n + 1] == '.'
    && forall k :: 0 <= k < |s| && k != n && k != n + 1 ==> IsDigit(s[k])
  }

  lemma FirstChoiceOfRange(s: string, n: nat, imports: Imports)
    requires ImportsStartWithName(imports) && RangeSource(s, n)
    ensures FirstMatch(LoopTokenRules, 0, s, 0, Compiled(imports)) == Some((4, Hit(n, "")))
  {
    IntegerBeforeRange(s, 0, n, imports);
  }

  lemma MiddleChoiceOfRange(s: string, n: nat, imports: Imports)
    requires ImportsStartWithName(imports) && RangeSource(s, n)
    ensures FirstMatch(LoopTokenRules, 0, s, n, Compiled(imports)) == Some((2, Hit(2, "")))
  {
    RangeBeforeDot(s, n, imports);
  }

  lemma LastChoiceOfRange(s: string, n: nat, imports: Imports)
    requires ImportsStartWithName(imports) && RangeSource(s, n)
    ensures FirstMatch(LoopTokenRules, 0, s, n + 2, Compiled(imports)) == Some((4, Hit(|s| - n - 2, "")))
  {
    IntegerBeforeRange(s, n + 2, |s| - n - 2, imports);
  }

  /** Range before float: a digit run, `..` and a digit run lex as
      INTEGER, RANGE, INTEGER (so `1..5` does), because FLOAT refuses a `.`
      that another `.` follows and RANGE is tried before DOT. */
  lemma RangeOfIntegers(s: string, n: nat, imports: Imports)
    requires ImportsStartWithName(imports) && RangeSource(s, n)
    ensures Scan(LoopTokenRules, s, 0, Compiled(imports))
            == [Match(Integer, s[..n], ""), Match(Range, "..", ""), Match(Integer, s[n + 2..], "")]
  {
    FirstChoiceOfRange(s, n, imports);
    MiddleChoiceOfRange(s, n, imports);
    LastChoiceOfRange(s, n, imports);
    ScanIntegerRangeInteger(s, n, Compiled(imports));
  }

  /** The scan of the loop-expression table once its three choices are known. */
  lemma ScanIntegerRangeInteger(s: string, n: nat, m: Matcher)
    requires RangeSource(s, n)
    requires FirstMatch(LoopTokenRules, 0, s, 0, m) == Some((4, Hit(n, "")))
    requires FirstMatch(LoopTokenRules, 0, s, n, m) == Some((2, Hit(2, "")))
    requires FirstMatch(LoopTokenRules, 0, s, n + 2, m) == Some((4, Hit(|s| - n - 2, "")))
    ensures Scan(LoopTokenRules, s, 0, m)
            == [Match(Integer, s[..n], ""), Match(Range, "..", ""), Match(Integer, s[n + 2..], "")]
  {
    assert s[n..n + 2] == "..";
    ScanThree(LoopTokenRules, s, m, n, n + 2, 4, 2, 4);
  }

  /** Three scan steps, each with an empty inner group, that end at the end
      of the source. */
  lemma ScanThree(rules: seq<Rule>, s: string, m: Matcher, i1: nat, i2: nat, k0: nat, k1: nat, k2: nat)
    requires 0 < i1 < i2 < |s| && k0 < |rules| && k1 < |rules| && k2 < |rules|
    requires FirstMatch(rules, 0, s, 0, m) == Some((k0, Hit(i1, "")))
    requires FirstMatch(rules, 0, s, i1, m) == Some((k1, Hit(i2 - i1, "")))
    requires FirstMatch(rules, 0, s, i2, m) == Some((k2, Hit(|s| - i2, "")))
    ensures Scan(rules, s, 0, m)
            == [Match(rules[k0].kind, s[..i1], ""), Match(rules[k1].kind, s[i1..i2], ""),
                Match(rules[k2].kind, s[i2..], "")]
  {
    var tail := Scan(rules, s, |s|, m);
    assert tail == [];
    var third := Scan(rules, s, i2, m);
    assert third == [Match(rules[k2].kind, s[i2..i2 + (|s| - i2)], "")] + tail;
    var second := Scan(rules, s, i1, m);
    assert second == [Match(rules[k1].kind, s[i1..i1 + (i2 - i1)], "")] + third;
    assert Scan(rules, s, 0, m) == [Match(rules[k0].kind, s[0..i1], "")] + second;
    assert s[0..i1] == s[..i1] && s[i2..i2 + (|s| - i2)] == s[i2..];
  }
}
