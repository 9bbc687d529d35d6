/**
 * Shared vocabulary of the Liquid tokenizer: token kinds, tokens, syntax
 * errors, the outcome of a tokenization run, newline counting and the
 * whitespace stripping that Python's `str.lstrip` / `str.rstrip` perform.
 */
module Tokens {

  datatype Option<+T> = None | Some(value: T)

  /** The closed set of token kinds used by the lexers, plus the internal
      rule names (Op, Newline, Skip, Illegal, IdentString) that the emission
      loops consume without ever emitting. */
  datatype Kind =
    // template-level kinds
    | Tag | Expression | Statement | Literal
    // expression-level kinds
    | Integer | Float | Negative | String | Identifier
    | Dot | Comma | LBracket | RBracket | LParen | RParen
    | Colon | Pipe | Assign | Range
    | IdentIndex | IdentString
    // rule names that never reach the token stream
    | Op | Newline | Skip | Illegal
    // an identifier reclassified to the keyword spelled by its own text
    | Keyword(word: string)
    // the kind the operators table gives to an operator spelling
    | Operator(name: string)

  /** One token: the line it starts on, its kind and its (possibly rewritten) text. */
  datatype Token = Token(line: int, kind: Kind, value: string)

  /** Why tokenization stopped. */
  datatype Reason =
    | Unexpected(found: string)        // the catch-all rule matched
    | UnknownOperator(op: string)      // an operator spelling missing from the table
    | ExpectedCloseFoundEof            // "expected '}}', found 'eof'"

  datatype SyntaxError = SyntaxError(line: int, reason: Reason)

  /** Number of '\n' characters in `s` (Python's `s.count("\n")`). */
  function Newlines(s: string): nat
  {
    if s == [] then 0 else (if s[0] == '\n' then 1 else 0) + Newlines(s[1..])
  }

  lemma {:induction false} NewlinesAppend(a: string, b: string)
    ensures Newlines(a + b) == Newlines(a) + Newlines(b)
  {
    if a == [] {
      assert a + b == b;
    } else {
      assert (a + b)[1..] == a[1..] + b;
      NewlinesAppend(a[1..], b);
    }
  }

  /** A string without '\n' counts no newlines. */
  lemma {:induction false} NewlinesNone(s: string)
    requires forall k :: 0 <= k < |s| ==> s[k] != '\n'
    ensures Newlines(s) == 0
  {
    if s != [] {
      NewlinesNone(s[1..]);
    }
  }

  /** Characters for which Python's `str.isspace()` holds; these are what
      `str.strip()` without arguments removes. */
  predicate IsSpace(c: char)
  {
    c == ' ' || ('\t' <= c <= '\r') || ('\U{1C}' <= c <= '\U{1F}')
    || c == '\U{85}' || c == '\U{A0}' || c == '\U{1680}'
    || ('\U{2000}' <= c <= '\U{200A}') || c == '\U{2028}' || c == '\U{2029}'
    || c == '\U{202F}' || c == '\U{205F}' || c == '\U{3000}'
  }

  /** Python's `s.lstrip()`: the longest suffix of `s` that does not start with whitespace. */
  function LStrip(s: string): (r: string)
    ensures |r| <= |s| && r == s[|s| - |r|..]
    ensures forall k :: 0 <= k < |s| - |r| ==> IsSpace(s[k])
    ensures r == [] || !IsSpace(r[0])
  {
    if s != [] && IsSpace(s[0]) then LStrip(s[1..]) else s
  }

  /** Python's `s.rstrip()`: the longest prefix of `s` that does not end with whitespace. */
  function RStrip(s: string): (r: string)
    ensures |r| <= |s| && r == s[..|r|]
    ensures forall k :: |r| <= k < |s| ==> IsSpace(s[k])
    ensures r == [] || !IsSpace(r[|r| - 1])
  {
    if s != [] && IsSpace(s[|s| - 1]) then RStrip(s[..|s| - 1]) else s
  }

  /** Token lines never decrease along the stream. */
  predicate LinesOrdered(ts: seq<Token>)
  {
    forall i, j :: 0 <= i < j < |ts| ==> ts[i].line <= ts[j].line
  }

  /** Every token line lies in [lo, hi]. */
  predicate LinesWithin(ts: seq<Token>, lo: int, hi: int)
  {
    forall i :: 0 <= i < |ts| ==> lo <= ts[i].line <= hi
  }

  /** Appending tokens on line `line` keeps an ordered stream ordered when
      every earlier token is at or before `line`. */
  lemma AppendOrdered(ts: seq<Token>, more: seq<Token>, lo: int, line: int)
    requires LinesOrdered(ts) && LinesWithin(ts, lo, line) && lo <= line
    requires forall i :: 0 <= i < |more| ==> more[i].line == line
    ensures LinesOrdered(ts + more) && LinesWithin(ts + more, lo, line)
  {
  }
}
