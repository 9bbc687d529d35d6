/**
 * The regular-expression fragments used by the rule tables of the
 * expression grammars, each modelled by the function that says what it
 * matches at a position of the source (Python's greedy and lazy choices and
 * its backtracking resolved by hand). Only the character-class patterns the
 * tables use are modelled; `\w` and `\d` are ASCII. Patterns defined outside
 * the two lexer files (the identifier, indexed-identifier and quoted-identifier
 * patterns of the loop-expression lexer) are `Imported` and resolved by a
 * caller-supplied matcher.
 */
module Patterns {
  import opened Tokens

  predicate IsDigit(c: char) { '0' <= c <= '9' }

  /** `\w`, restricted to ASCII. */
  predicate IsWordChar(c: char) { 'a' <= c <= 'z' || 'A' <= c <= 'Z' || IsDigit(c) || c == '_' }

  /** The character classes the rule tables use. */
  datatype Class =
    | DigitClass                 // \d
    | WordClass                  // \w
    | IdentTail(question: bool)  // [a-zA-Z0-9_\-] or, with `question`, [a-zA-Z0-9_\-?]
    | Members(chars: string)     // an explicit set such as [ \t] or [!=<>]

  predicate InClass(c: char, cls: Class)
  {
    match cls
    case DigitClass => IsDigit(c)
    case WordClass => IsWordChar(c)
    case IdentTail(question) => IsWordChar(c) || c == '-' || (question && c == '?')
    case Members(chars) => c in chars
  }

  const QUOTES := "\"'"

  /** What a pattern consumed at a position: its length and the inner
      capture group that the lexers use (`quoted` for strings, the index
      or quoted name for imported identifier patterns), else "". */
  datatype Hit = Hit(len: nat, inner: string)

  datatype Pattern =
    | Lit(text: string)        // a fixed spelling: `=`, `\.`, `\.\.`, `\n`, ...
    | Digits                   // \d+
    | Decimal                  // \d+\.\d*
    | SignedFloat              // -?\d+\.(?!\.)\d*
    | SignedInteger            // -?\d+\b
    | Quoted                   // (?P<quote>["'])(?P<quoted>.*?)(?P=quote)
    | Word(tail: Class)        // \w[tail]*
    | Chars(members: string)   // [members]+
    | OpChars                  // [!=<>]{1,2}
    | AnyChar                  // .  (DOTALL)
    | Imported(name: string)   // defined outside the modelled files

  /** A matcher for imported patterns: (pattern name, source, position). */
  type Imports = (string, string, nat) -> Option<Hit>

  /** For the tables that import nothing. */
  function NoImports(name: string, s: string, i: nat): Option<Hit> { None }

  /** Length of the longest run of characters of `cls` starting at `i`. */
  function Span(cls: Class, s: string, i: nat): (n: nat)
    requires i <= |s|
    ensures i + n <= |s|
    ensures forall k :: i <= k < i + n ==> InClass(s[k], cls)
    ensures i + n == |s| || !InClass(s[i + n], cls)
    decreases |s| - i
  {
    if i < |s| && InClass(s[i], cls) then 1 + Span(cls, s, i + 1) else 0
  }

  /** The first position at or after `j` holding `q`, if any. */
  function FindChar(s: string, q: char, j: nat): (r: Option<nat>)
    requires j <= |s|
    ensures r.Some? ==> j <= r.value < |s| && s[r.value] == q
    ensures r.Some? ==> forall k :: j <= k < r.value ==> s[k] != q
    ensures r.None? ==> forall k :: j <= k < |s| ==> s[k] != q
    decreases |s| - j
  {
    if j == |s| then None
    else if s[j] == q then Some(j)
    else FindChar(s, q, j + 1)
  }

  /** What pattern `p` matches at position `i` of `s`, with Python's
      greedy/lazy choices and backtracking resolved by hand. */
  function MatchAt(p: Pattern, s: string, i: nat, imports: Imports): (r: Option<Hit>)
    requires i <= |s|
    ensures r.Some? ==> 0 < r.value.len <= |s| - i
  {
    match p
    case Lit(t) =>
      if t != [] && i + |t| <= |s| && s[i..i + |t|] == t then Some(Hit(|t|, "")) else None
    case Digits =>
      var n := Span(DigitClass, s, i);
      if n > 0 then Some(Hit(n, "")) else None
    case Decimal =>
      var n := Span(DigitClass, s, i);
      if n > 0 && i + n < |s| && s[i + n] == '.'
      then Some(Hit(n + 1 + Span(DigitClass, s, i + n + 1), ""))
      else None
    case SignedFloat =>
      var m := if i < |s| && s[i] == '-' then 1 else 0;
      var n := Span(DigitClass, s, i + m);
      var dot := i + m + n;
      if n > 0 && dot < |s| && s[dot] == '.' && !(dot + 1 < |s| && s[dot + 1] == '.')
      then Some(Hit(m + n + 1 + Span(DigitClass, s, dot + 1), ""))
      else None
    case SignedInteger =>
      var m := if i < |s| && s[i] == '-' then 1 else 0;
      var n := Span(DigitClass, s, i + m);
      if n > 0 && (i + m + n == |s| || !IsWordChar(s[i + m + n])) then Some(Hit(m + n, "")) else None
    case Quoted =>
      if i < |s| && s[i] in QUOTES then
        match FindChar(s, s[i], i + 1)
        case Some(k) => Some(Hit(k - i + 1, s[i + 1..k]))
        case None => None
      else None
    case Word(tail) =>
      if i < |s| && IsWordChar(s[i]) then Some(Hit(1 + Span(tail, s, i + 1), "")) else None
    case Chars(members) =>
      var n := Span(Members(members), s, i);
      if n > 0 then Some(Hit(n, "")) else None
    case OpChars =>
      var n := Span(Members("!=<>"), s, i);
      if n == 0 then None else Some(Hit(if n < 2 then n else 2, ""))
    case AnyChar =>
      if i < |s| then Some(Hit(1, "")) else None
    case Imported(name) =>
      match imports(name, s, i)
      case Some(h) => if 0 < h.len <= |s| - i then Some(h) else None
      case None => None
  }

  /** A matcher: what each pattern matches at a position of a source. */
  type Matcher = (Pattern, string, nat) -> Option<Hit>

  /** The matcher a compiled table uses, given the imported patterns. */
  function Compiled(imports: Imports): Matcher
  {
    (p: Pattern, s: string, i: nat) => if i <= |s| then MatchAt(p, s, i, imports) else None
  }

  /** `text` is `inner` between two equal quote characters that `inner`
      does not contain. */
  predicate Unquotes(text: string, inner: string)
  {
    |text| >= 2 && text[0] in QUOTES
    && text == [text[0]] + inner + [text[0]]
    && text[0] !in inner
  }

  /** The catch-all `.` matches any one character. */
  ghost predicate MatchesAnyChar(m: Matcher)
  {
    forall s: string, i: nat :: i < |s| ==> m(AnyChar, s, i) == Some(Hit(1, ""))
  }

  /** STRING_PATTERN hits are a quoted run whose inner group drops the quotes. */
  ghost predicate QuotesSound(m: Matcher)
  {
    forall s: string, i: nat, h: Hit ::
      i <= |s| && m(Quoted, s, i) == Some(h) ==> i + h.len <= |s| && Unquotes(s[i..i + h.len], h.inner)
  }

  /** `[members]+` hits consume only members. */
  ghost predicate CharsSound(m: Matcher)
  {
    forall members: string, s: string, i: nat, h: Hit ::
      i <= |s| && m(Chars(members), s, i) == Some(h) ==>
        i + h.len <= |s| && forall k :: i <= k < i + h.len ==> s[k] in members
  }

  /** A fixed spelling matches only itself. */
  ghost predicate LitSound(m: Matcher)
  {
    forall t: string, s: string, i: nat, h: Hit ::
      i <= |s| && m(Lit(t), s, i) == Some(h) ==> i + h.len <= |s| && s[i..i + h.len] == t
  }

  /** The matcher facts the scanner lemmas rely on. */
  ghost predicate SoundMatcher(m: Matcher)
  {
    MatchesAnyChar(m) && QuotesSound(m) && CharsSound(m) && LitSound(m)
  }

  /** The lazy `.*?` of STRING_PATTERN stops at the first closing quote equal
      to the opening one, so the match is that quote, the inner group, and the
      quote again. */
  lemma QuotedHit(s: string, i: nat, imports: Imports, h: Hit)
    requires i <= |s| && MatchAt(Quoted, s, i, imports) == Some(h)
    ensures i + h.len <= |s| && Unquotes(s[i..i + h.len], h.inner)
  {
    var q := FindChar(s, s[i], i + 1).value;
    assert s[i..i + h.len] == [s[i]] + s[i + 1..q] + [s[q]];
    assert s[i] !in s[i + 1..q];
  }

  /** The compiled matcher has every fact the scanner lemmas rely on. */
  lemma CompiledSound(imports: Imports)
    ensures SoundMatcher(Compiled(imports))
  {
    CompiledMatchesAnyChar(imports);
    CompiledQuotesSound(imports);
    CompiledCharsSound(imports);
    CompiledLitSound(imports);
  }

  lemma CompiledMatchesAnyChar(imports: Imports)
    ensures MatchesAnyChar(Compiled(imports))
  {
  }

  lemma {:induction false} CompiledQuotesSound(imports: Imports)
    ensures QuotesSound(Compiled(imports))
  {
    var m := Compiled(imports);
    forall s: string, i: nat, h: Hit | i <= |s| && m(Quoted, s, i) == Some(h)
      ensures i + h.len <= |s| && Unquotes(s[i..i + h.len], h.inner)
    {
      QuotedHit(s, i, imports, h);
    }
  }

  lemma CompiledCharsSound(imports: Imports)
    ensures CharsSound(Compiled(imports))
  {
  }

  lemma CompiledLitSound(imports: Imports)
    ensures LitSound(Compiled(imports))
  {
  }

  /** A run of `len` characters of `cls` followed by a non-member (or the end)
      is exactly what Span measures. */
  lemma SpanExact(cls: Class, s: string, i: nat, len: nat)
    requires i + len <= |s|
    requires forall k :: i <= k < i + len ==> InClass(s[k], cls)
    requires i + len == |s| || !InClass(s[i + len], cls)
    ensures Span(cls, s, i) == len
  {
  }

  /** A digit run that the end or `..` follows is no FLOAT
      (`-?\d+\.(?!\.)\d*`) but is an INTEGER (`-?\d+\b`). */
  lemma DigitRunIsInteger(s: string, i: nat, n: nat, imports: Imports)
    requires 0 < n && i + n <= |s|
    requires forall k :: i <= k < i + n ==> IsDigit(s[k])
    requires i + n == |s| || (i + n + 1 < |s| && s[i + n] == '.' && s[i + n + 1] == '.')
    ensures MatchAt(SignedFloat, s, i, imports).None?
    ensures MatchAt(SignedInteger, s, i, imports) == Some(Hit(n, ""))
  {
    assert s[i] != '-' by { assert IsDigit(s[i]); }
    SpanExact(DigitClass, s, i, n);
  }
}
