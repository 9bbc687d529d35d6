# Liquid tokenizers, modelled in Dafny

This project models the tokenizers of the Python Liquid template engine.
Each tokenizer turns source text into a stream of `Token(line, kind, value)`
values, or into a syntax error that carries a line number.

- **The expression lexer** (`_tokenize` in `liquid/lex.py`). A rule table is
  compiled into one alternation. The first rule that matches at a position
  wins. The emission loop then does the following with each match:
  - an IDENTIFIER that is a keyword is re-kinded to that keyword;
  - a STRING is emitted as its inner `quoted` group;
  - an OP is looked up in the operators table;
  - NEWLINE raises the line by one, and SKIP is dropped;
  - ILLEGAL, or an operator the table does not know, raises a syntax error.

  The seven `partial` configurations are modelled: identifier, loop,
  filtered, assignment, boolean, include and paginate. Each is a rule table
  plus a keyword set.
- **The loop-expression lexer** (`tokenize` in `liquid/expressions/loop/lex.py`).
  It has its own table, in which RANGE is tried before FLOAT and DOT. The
  lexer starts at a caller-given line and adds the newlines of every emitted
  match before it yields that match.
- **The line lexer of the `liquid` tag** (`tokenize_liquid_expression`). It
  runs an unanchored pattern over the tag body. At each position it tries
  the pattern: spaces and tabs, then a word, then the rest of the line. A
  line that holds no word is passed over, and a line that starts with other
  characters (`-- x`) is matched from its first word on. Each match yields a
  TAG token, plus an EXPRESSION token when the rest of its line is
  non-empty.
- **The template lexer** (`_tokenize_template`). It works on STATEMENT, TAG,
  RAW and LITERAL matches:
  - one `lstrip` flag carries whitespace control from a closing `-` to the
    later literals;
  - a literal that opens `{{` or `{%` without closing it raises
    "expected '}}', found 'eof'".

Each emission loop is a `method` with a `for` loop. The method is proved
equal to a specification function (`Lex`) that folds a one-step function
over the matches. Lemmas about `Lex` then state what the loop promises:
- which token each match yields, and on which line;
- line numbers never decrease and stay within their bounds;
- which token kinds can occur;
- exactly when the run fails, and on which line it fails;
- that the tokens yielded before the failure are kept, as a consumer of the
  Python generator would have seen them.

The scanner (`Rules.Scan`) is a first-match-wins search over a rule table.
Where no rule matches it moves on by one character, as `finditer` does.
Over a table that ends with the catch-all, its matches are proved to tile
the source. The regular-expression patterns
of the tables are functions that say what each pattern matches at a
position (`Patterns.MatchAt`).

Modules: `Tokens` (tokens and errors), `Patterns`, `Rules` (scanner and
tables), `ExprLexer`, `LoopLexer`, `LiquidPattern` (the line pattern and its
search), `LiquidSearch` (what that search promises), `LiquidLines` and
`TemplateLexer`.

## Model

| member | source | states |
|---|---|---|
| Tokens.LStrip | liquid/lex.py:332-333 | `str.lstrip()`: the result is a suffix of the input, everything dropped is whitespace, and the result does not start with whitespace |
| Tokens.RStrip | liquid/lex.py:334-335 | `str.rstrip()`: the result is a prefix of the input, everything dropped is whitespace, and the result does not end with whitespace |
| Patterns.MatchAt | liquid/lex.py:36-49 | a pattern that matches at a position consumes at least one character and no more than the rest of the source |
| Patterns.QuotedHit | liquid/lex.py:37 | a STRING_PATTERN match is an opening quote, the `quoted` group, and the same quote again; the group does not contain that quote |
| Patterns.CompiledSound | liquid/lex.py:37-49 | the compiled patterns behave as the scanner lemmas need: `.` takes any one character, a quoted match drops only its quotes, a character class takes only its members, a literal matches only itself |
| Patterns.DigitRunIsInteger | liquid/expressions/loop/lex.py:42-43 | a digit run followed by the end or by `..` is not a FLOAT but is an INTEGER of exactly that run |
| Rules.FirstMatch | liquid/lex.py:188-191 | the alternation reports a rule at or after the one it starts from, and a hit that consumes at least one character and stays inside the source |
| Rules.Scan | liquid/lex.py:220-222 | `finditer` yields at most one match per character of the source, and no match is empty |
| Rules.FirstMatchWins | liquid/lex.py:188-191 | the alternation reports a rule that matches, no earlier rule matches, and nothing is reported exactly when no rule matches |
| Rules.CatchAllMatches | liquid/lex.py:49 | a table that ends with the catch-all `.` always reports a match where the source is not exhausted |
| Rules.ScanStep | liquid/lex.py:188-191 | one step of `finditer` reports the winning rule with the text it consumed, and the scan then resumes after that text |
| Rules.ScanCovers | liquid/lex.py:188-191 | the matches of a table that ends with the catch-all tile the source: their texts, joined in order, are the whole remaining source |
| Rules.ScanShaped | liquid/lex.py:36-49 | every match of a well-formed table is shaped: STRING is its inner group between equal quotes, SKIP holds no newline, NEWLINE is one `\n` |
| Rules.RulesOf | liquid/lex.py:256-297 | each of the seven partial configurations uses a well-formed table that ends with the catch-all |
| Rules.IdentifierRulesWellFormed | liquid/lex.py:39-49 | the identifier table is well formed |
| Rules.FilteredExpressionRulesWellFormed | liquid/lex.py:51-66 | the filtered-expression table is well formed |
| Rules.AssignmentExpressionRulesWellFormed | liquid/lex.py:77-80 | the assignment table (the filtered table behind an assignment prefix) is well formed |
| Rules.BooleanExpressionRulesWellFormed | liquid/lex.py:82-96 | the boolean-expression table is well formed |
| Rules.LoopExpressionRulesWellFormed | liquid/lex.py:110-123 | the loop-expression table of liquid/lex.py is well formed |
| Rules.IncludeExpressionRulesWellFormed | liquid/lex.py:135-149 | the include-expression table is well formed |
| Rules.LoopTokenRulesWellFormed | liquid/expressions/loop/lex.py:38-55 | the loop lexer's own table is well formed |
| Rules.IntegerBeforeRange | liquid/expressions/loop/lex.py:39-45 | at a digit run followed by the end or `..`, the loop table picks INTEGER over the whole run |
| Rules.RangeBeforeDot | liquid/expressions/loop/lex.py:39-44 | at `..`, the loop table picks RANGE, not DOT |
| Rules.RangeOfIntegers | liquid/expressions/loop/lex.py:38-55 | `digits..digits` scans as exactly INTEGER, RANGE, INTEGER |
| ExprLexer.TokenOf | liquid/lex.py:228-253 | a keyword identifier takes the keyword kind, a STRING yields its inner group, an OP takes the operator table's kind, any other match keeps its kind and text; the token carries the running line |
| ExprLexer.Step | liquid/lex.py:226-253 | NEWLINE raises the line, SKIP changes nothing, ILLEGAL or an unknown operator sets the error on the running line, and every other match appends its token |
| ExprLexer.Emit | liquid/lex.py:220-253 | the loop returns exactly the tokens and error of `Lex` over the matches |
| ExprLexer.EmitMatch | liquid/lex.py:226-253 | one pass of the loop body: NEWLINE raises the line, SKIP does nothing, ILLEGAL and an unknown operator raise on the running line, every other rule yields its token on the running line |
| ExprLexer.Tokenize | liquid/lex.py:216-253 | `_tokenize` is the emission loop run over the scan of the source |
| ExprLexer.TokenizeGrammar | liquid/lex.py:256-297 | each partial is `_tokenize` with its own table and keyword set |
| ExprLexer.LexNext | liquid/lex.py:220-253 | after a prefix that did not fail, the next match acts on line 1 plus the NEWLINE matches of the prefix |
| ExprLexer.LexLine | liquid/lex.py:220-245 | the running line is 1 plus the number of NEWLINE matches read |
| ExprLexer.LexLinesOrdered | liquid/lex.py:220-253 | token lines never decrease and lie between 1 and the running line |
| ExprLexer.LexTokensClean | liquid/lex.py:228-253 | no token is NEWLINE, SKIP, ILLEGAL or a raw OP; a keyword kind appears only for a keyword of the grammar, spelled by its value, and an IDENTIFIER is never a keyword |
| ExprLexer.LexFailsIffFatal | liquid/lex.py:234-251 | the run fails if and only if some match is ILLEGAL or an unknown operator |
| ExprLexer.LexFailsAtFirstFatal | liquid/lex.py:234-251 | the first fatal match decides the error: its line is 1 plus the NEWLINE matches before it, and the tokens are those yielded before it |
| ExprLexer.LexTokenCount | liquid/lex.py:243-253 | a successful run yields one token per match other than NEWLINE and SKIP |
| ExprLexer.GrammarTokensClean | liquid/lex.py:256-297 | the tokens of every partial configuration are clean |
| LoopLexer.TokenOf | liquid/expressions/loop/lex.py:84-100 | IDENTINDEX yields its index group, IDENTSTRING yields an IDENTIFIER with its quoted group, a keyword identifier takes the keyword kind, and every token's line includes the newlines of its own text |
| LoopLexer.Step | liquid/expressions/loop/lex.py:81-100 | the line advances by the match's effect, ILLEGAL sets the error on the running line, and yielding matches append their token |
| LoopLexer.Emit | liquid/expressions/loop/lex.py:77-100 | the loop returns exactly the tokens and error of `Lex` from the starting line |
| LoopLexer.EmitMatch | liquid/expressions/loop/lex.py:81-100 | one pass of the loop body: NEWLINE raises the line by one, SKIP does nothing, ILLEGAL raises on the running line, and every other rule first adds its own newlines to the line and then yields its token on it |
| LoopLexer.Tokenize | liquid/expressions/loop/lex.py:74-100 | `tokenize` is the loop run over the scan of the source with the loop table |
| LoopLexer.LexLine | liquid/expressions/loop/lex.py:91-99 | the running line is the start plus the advance of every match read |
| LoopLexer.LexNext | liquid/expressions/loop/lex.py:84-100 | after a prefix that did not fail, the next match acts on the start line plus the prefix's advance |
| LoopLexer.LexLinesOrdered | liquid/expressions/loop/lex.py:91-100 | token lines never decrease and lie between the start and the running line |
| LoopLexer.LexTokensClean | liquid/expressions/loop/lex.py:84-100 | no token is NEWLINE, SKIP, ILLEGAL or IDENTSTRING, and a keyword kind appears only for a loop keyword |
| LoopLexer.LexFailsIffIllegal | liquid/expressions/loop/lex.py:96-97 | the run fails if and only if some match is ILLEGAL |
| LoopLexer.LexFailsAtFirstIllegal | liquid/expressions/loop/lex.py:96-97 | the first ILLEGAL match decides the error: its line is the start plus the advance before it, and the tokens are those yielded before it |
| LoopLexer.AdvanceIsNewlines | liquid/expressions/loop/lex.py:82-99 | over shaped matches, the total advance equals the newlines of the matched text |
| LoopLexer.EndToEnd | liquid/expressions/loop/lex.py:74-100 | a successful tokenize ends on the start line plus the newlines of the whole source, and its tokens are clean |
| LiquidPattern.LineAt | liquid/lex.py:197 | LIQUID_EXPRESSION_RE matches at a position exactly when a word follows the spaces and tabs there; the match starts there and is located in the source |
| LiquidSearch.LineAtShape | liquid/lex.py:197 | a match is leading blanks, then `name` (a whole word: the character after it is not a word character), then blanks, then `expr` (no newline, not starting with a blank), then `\n` or the end of the body; so it holds at most one newline |
| LiquidPattern.Search | liquid/lex.py:204 | `finditer` reports located, non-empty matches, in order and without overlap |
| LiquidSearch.SearchMatchesAt | liquid/lex.py:204 | every match `finditer` reports is exactly what the pattern matches at its start |
| LiquidSearch.SearchSkipsNoMatch | liquid/lex.py:204 | every position that no reported match covers is one where the pattern does not match, so no line holding a word is left out |
| LiquidLines.Emit | liquid/lex.py:202-213 | the loop returns exactly `LineTokens` of the matches |
| LiquidLines.TokenizeLiquidExpression | liquid/lex.py:200-213 | the lexer yields `LineTokens` of the search over the body |
| LiquidLines.LineCount | liquid/lex.py:202-208 | the count is 1 plus the newlines inside the matched texts |
| LiquidLines.LineTokensAppend | liquid/lex.py:206-213 | each further match yields its TAG and, when present, EXPRESSION token on 1 plus the newlines of the earlier matches |
| LiquidLines.LineTokensShape | liquid/lex.py:206-213 | every EXPRESSION follows its TAG on the same line, lines are ordered and within the count, and there is one TAG per match plus one EXPRESSION per non-empty expression |
| LiquidLines.BlankLineMiscount | liquid/lex.py:204-210 | for `a\n\nb` the second tag is reported on line 2, although it stands on line 3 |
| LiquidLines.TokenizeLiquidExpressionFixed | liquid/lex.py:200-213 | the corrected lexer yields each match's tokens on the line where the match starts |
| LiquidLines.EmitFixed | liquid/lex.py:202-213 | the corrected loop, which counts newlines up to each match's start, returns `FixedTokens` |
| LiquidLines.BlankLineFixed | liquid/lex.py:204-210 | for `a\n\nb` the corrected lexer reports the second tag on line 3 |
| LiquidLines.FixedAgreesWithoutSkippedNewlines | liquid/lex.py:202-213 | when the search skips no newline, the corrected lexer and the original agree token for token |
| TemplateLexer.TokenizeTemplate | liquid/lex.py:300-349 | the loop returns exactly the tokens and error of `Lex` over the template matches |
| TemplateLexer.LexMatch | liquid/lex.py:305-349 | one pass of the loop body: tokens on the count read before the match, the count grown by the match's newlines, the flag updated by STATEMENT and TAG, and a literal that opens `{{` or `{%` raising on the grown count |
| TemplateLexer.StripLiteral | liquid/lex.py:332-335 | whitespace control: left-strip under the flag, right-strip when the next delimiter has `-` |
| TemplateLexer.LexCount | liquid/lex.py:301-310 | the count is 1 plus the newlines of the matches read; on success the flag is the trim marker of the last STATEMENT or TAG; an error is reported on the count |
| TemplateLexer.DelimiterNext | liquid/lex.py:312-329 | a STATEMENT yields its `stmt` group and sets the flag from `rss`; a TAG yields TAG and, when the expression is non-empty, EXPRESSION, and sets the flag from `rst`; RAW yields its interior as a LITERAL; all on the count read before the match |
| TemplateLexer.LiteralNext | liquid/lex.py:331-349 | a literal stripped to nothing is dropped; one that starts with `{{` or `{%` fails on the count after the literal; otherwise it yields a LITERAL |
| TemplateLexer.LexLinesOrdered | liquid/lex.py:301-349 | token lines never decrease and lie between 1 and the count |
| TemplateLexer.LexStreamWellFormed | liquid/lex.py:312-349 | only TAG, EXPRESSION, STATEMENT and LITERAL tokens occur, and every EXPRESSION is non-empty and right after a TAG on the same line |
| TemplateLexer.LiteralValueTrims | liquid/lex.py:331-335 | whitespace control only trims: the value is a slice of the text, with whitespace outside it, and the text itself when no strip applies |
| TemplateLexer.LexFailsIffUnterminated | liquid/lex.py:337-347 | the run fails if and only if some literal, stripped under the flag in force, is non-empty and opens `{{` or `{%`; the reason is always "expected '}}', found 'eof'" |
| TemplateLexer.LexFailsAtFirst | liquid/lex.py:331-347 | the first failing literal decides the error, on 1 plus the newlines up to and including that literal, and the tokens yielded before it are kept |

## Left out

- Python's regular-expression engine is not modelled in general. `Patterns.MatchAt` resolves only the patterns the tables use, with the greedy and lazy choices worked out by hand.
- The template rules of `compile_liquid_rules` are not modelled. They are lazy look-ahead patterns built from the delimiters. `TemplateLexer` takes their matches as input. Custom delimiters, `re.escape`, and `get_lexer` with its `lru_cache` are not modelled either.
- The identifier patterns the loop lexer imports from the shared expression module (IDENTIFIER, IDENTINDEX, IDENTSTRING) are a caller-supplied matcher, `Imports`. That module is not part of this model.
- The operators table and the token-kind constants are not part of this model. The operators table is a `map` parameter, and a keyword's kind is `Keyword(word)`.
- `\w` and `\d` are ASCII only. Python matches Unicode word characters and digits.
- Patterns.MatchAt: states only that a match consumes between one character and the rest of the source. What each pattern matches is given by its definition.
- LiquidSyntaxError's message formatting is not modelled. An error is its line plus a reason.
- Generator laziness is not modelled. A failed run is the list of tokens yielded before the error, plus the error.
- Rules.IntegerBeforeRange, Rules.RangeBeforeDot and Rules.RangeOfIntegers rest on `ImportsStartWithName`: the imported IDENTINDEX and IDENTSTRING patterns do not match at a digit or a `.`. Those patterns are in the shared expression module, which is not part of this model, so this is assumed of the caller-supplied matcher rather than proved.

Other behaviour of the code that the model keeps as written:
- `_tokenize` counts only NEWLINE matches. A multi-line STRING does not advance the line.
- The loop lexer adds a match's newlines before it yields the match. A token whose text spans lines therefore reports its last line.
- In the line lexer, the `expr` group keeps trailing spaces, because the greedy `.*` swallows them before the lazy `[ \t]*?`.
- In the template lexer, the `lstrip` flag persists across literals until the next STATEMENT or TAG. The unterminated-delimiter check is hard-coded to `{{` and `{%`.

## Findings

| source | as written | input that shows it | evidently intended | confidence | as-written member | corrected member |
|---|---|---|---|---|---|---|
| liquid/lex.py:204-210 | the line count grows only by the newlines inside matched lines, so the newlines of text the search passes over (a line with no word, and the newline ending it) are never counted | the body `a\n\nb`: the tag `b` stands on line 3 but is reported on line 2 | every tag reports the line on which it stands | medium, not executed | LiquidLines.BlankLineMiscount | LiquidLines.TokenizeLiquidExpressionFixed |
