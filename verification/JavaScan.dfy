/**
 * Finding the end of a Java block while ignoring braces in literals and comments.
 *
 * `block_end` and `extract_method` are two independently written loops for the same job. Both are
 * proved here against one step function, and that step function is proved against a declarative
 * description of Java lexemes.
 */
module JavaScan {
  import opened Sequences

  // ---------------------------------------------------------------- one character at a time

  datatype Mode = Code | LineComment | BlockComment | Quoted(quote: char)

  datatype Config = Config(at: nat, mode: Mode, depth: int)

  datatype Outcome = Go(next: Config) | Close(end: nat)

  predicate PairAt(text: string, i: nat, first: char, second: char) {
    i + 1 < |text| && text[i] == first && text[i + 1] == second
  }

  predicate IsQuote(c: char) {
    c == '"' || c == '\''
  }

  function Step(text: string, c: Config): Outcome
    requires c.at < |text|
  {
    var ch := text[c.at];
    match c.mode
    case LineComment => Go(Config(c.at + 1, if ch == '\n' then Code else LineComment, c.depth))
    case BlockComment =>
      if PairAt(text, c.at, '*', '/') then Go(Config(c.at + 2, Code, c.depth)) else Go(c.(at := c.at + 1))
    case Quoted(q) =>
      if ch == '\\' then Go(c.(at := c.at + 2))
      else Go(Config(c.at + 1, if ch == q then Code else c.mode, c.depth))
    case Code =>
      if PairAt(text, c.at, '/', '/') then Go(Config(c.at + 2, LineComment, c.depth))
      else if PairAt(text, c.at, '/', '*') then Go(Config(c.at + 2, BlockComment, c.depth))
      else if IsQuote(ch) then Go(Config(c.at + 1, Quoted(ch), c.depth))
      else if ch == '{' then Go(Config(c.at + 1, Code, c.depth + 1))
      else if ch == '}' then
        if c.depth == 1 then Close(c.at + 1) else Go(Config(c.at + 1, Code, c.depth - 1))
      else Go(c.(at := c.at + 1))
  }

  /** Where the scan stops; `None` when the text ends first. */
  function Scan(text: string, c: Config): Option<nat>
    decreases |text| - c.at
  {
    if c.at >= |text| then None
    else
      match Step(text, c)
      case Close(e) => Some(e)
      case Go(n) => Scan(text, n)
  }

  function BlockEndOf(text: string, opening: nat): Option<nat> {
    Scan(text, Config(opening, Code, 0))
  }

  // ---------------------------------------------------------------- the two loops

  method BlockEnd(text: string, opening: nat) returns (end: Option<nat>)
    ensures end == BlockEndOf(text, opening)
  {
    var depth: int := 0;
    var state := Code;
    var i := opening;
    while i < |text|
      invariant Scan(text, Config(i, state, depth)) == BlockEndOf(text, opening)
      decreases |text| - i
    {
      var c := text[i];
      if state == LineComment {
        if c == '\n' { state := Code; }
      } else if state == BlockComment {
        if PairAt(text, i, '*', '/') { state := Code; i := i + 1; }
      } else if state.Quoted? {
        if c == '\\' { i := i + 1; } else if c == state.quote { state := Code; }
      } else if PairAt(text, i, '/', '/') {
        state := LineComment; i := i + 1;
      } else if PairAt(text, i, '/', '*') {
        state := BlockComment; i := i + 1;
      } else if IsQuote(c) {
        state := Quoted(c);
      } else if c == '{' {
        depth := depth + 1;
      } else if c == '}' {
        depth := depth - 1;
        if depth == 0 { return Some(i + 1); }
      }
      i := i + 1;
    }
    end := None;
  }

  /** The five states that `extract_method` names. */
  datatype ExtractState = InCode | InLine | InComment | InString | InChar

  function ModeOf(s: ExtractState): Mode {
    match s
    case InCode => Code
    case InLine => LineComment
    case InComment => BlockComment
    case InString => Quoted('"')
    case InChar => Quoted('\'')
  }

  predicate OccursAt(text: string, pattern: string, k: nat) {
    k + |pattern| <= |text| && text[k..k + |pattern|] == pattern
  }

  /** The first place at or after `from` where `pattern` occurs. */
  function IndexOf(text: string, pattern: string, from: nat): (r: Option<nat>)
    ensures r.Some? ==> from <= r.value && OccursAt(text, pattern, r.value)
    ensures forall k | from <= k && (r.None? || k < r.value) :: !OccursAt(text, pattern, k)
    decreases |text| - from
  {
    if from + |pattern| > |text| then None
    else if OccursAt(text, pattern, from) then Some(from)
    else IndexOf(text, pattern, from + 1)
  }

  /** The extent of the method whose declaration starts at `start`: its opening brace and its end. */
  function ExtentFrom(text: string, start: nat): (r: Option<(nat, nat)>)
    ensures r.Some? ==> start <= r.value.0 < r.value.1 <= |text| && text[r.value.0] == '{'
    ensures r.Some? ==> '{' !in text[start..r.value.0]
  {
    match IndexOf(text, "{", start)
    case None => None
    case Some(opening) =>
      assert text[opening] == text[opening..opening + 1][0];
      assert '{' !in text[start..opening] by {
        if '{' in text[start..opening] {
          var k :| start <= k < opening && text[k] == '{';
          assert OccursAt(text, "{", k);
        }
      }
      match BlockEndOf(text, opening)
      case None => None
      case Some(end) =>
        ScanBounds(text, Config(opening, Code, 0));
        Some((opening, end))
  }

  /** The loop of `extract_method`, from the brace at `body`. */
  method ExtractEnd(source: string, body: nat) returns (end: Option<nat>)
    ensures end == BlockEndOf(source, body)
  {
    var depth: int, index, state := 0, body, InCode;
    while index < |source|
      invariant Scan(source, Config(index, ModeOf(state), depth)) == BlockEndOf(source, body)
      decreases |source| - index
    {
      var c := source[index];
      if state == InCode {
        if PairAt(source, index, '/', '/') {
          state := InLine; index := index + 1;
        } else if PairAt(source, index, '/', '*') {
          state := InComment; index := index + 1;
        } else if c == '"' {
          state := InString;
        } else if c == '\'' {
          state := InChar;
        } else if c == '{' {
          depth := depth + 1;
        } else if c == '}' {
          depth := depth - 1;
          if depth == 0 { return Some(index + 1); }
        }
      } else if state == InLine {
        if c == '\n' { state := InCode; }
      } else if state == InComment {
        if PairAt(source, index, '*', '/') { state := InCode; index := index + 1; }
      } else if c == '\\' {
        index := index + 1;
      } else if (state == InString && c == '"') || (state == InChar && c == '\'') {
        state := InCode;
      }
      index := index + 1;
    }
    end := None;
  }

  /** The text from the first occurrence of `signature` to the end of the block that follows it. */
  function Extracted(source: string, signature: string): Option<string> {
    match IndexOf(source, signature, 0)
    case None => None
    case Some(start) =>
      match ExtentFrom(source, start)
      case None => None
      case Some(extent) => Some(source[start..extent.1])
  }

  method ExtractMethod(source: string, signature: string) returns (r: Option<string>)
    ensures r == Extracted(source, signature)
  {
    var start := IndexOf(source, signature, 0);
    if start.None? { return None; }
    var body := IndexOf(source, "{", start.value);
    if body.None? { return None; }
    var end := ExtractEnd(source, body.value);
    if end.None? { return None; }
    ScanBounds(source, Config(body.value, Code, 0));
    r := Some(source[start.value..end.value]);
  }

  lemma {:induction false} ScanBounds(text: string, c: Config)
    ensures Scan(text, c).Some? ==> c.at < Scan(text, c).value <= |text|
    decreases |text| - c.at
  {
    if c.at < |text| && Step(text, c).Go? {
      ScanBounds(text, Step(text, c).next);
    }
  }

  // ---------------------------------------------------------------- lexemes, declaratively

  /** `text[i..j]` is the inside of a literal: escape pairs, and characters other than `\` and the quote. */
  predicate LiteralBody(text: string, i: nat, j: nat, quote: char)
    decreases j - i
  {
    i == j ||
    (i < j <= |text| &&
      if text[i] == '\\' then i + 2 <= j && LiteralBody(text, i + 2, j, quote)
      else text[i] != quote && LiteralBody(text, i + 1, j, quote))
  }

  predicate IsLineComment(text: string, a: nat, b: nat) {
    && PairAt(text, a, '/', '/') && a + 2 < b <= |text| && text[b - 1] == '\n'
    && forall k | a + 2 <= k < b - 1 :: text[k] != '\n'
  }

  predicate IsBlockComment(text: string, a: nat, b: nat) {
    && PairAt(text, a, '/', '*') && a + 4 <= b <= |text| && PairAt(text, b - 2, '*', '/')
    && forall k | a + 2 <= k < b - 2 :: !PairAt(text, k, '*', '/')
  }

  predicate IsLiteral(text: string, a: nat, b: nat) {
    && a + 2 <= b <= |text| && IsQuote(text[a]) && text[b - 1] == text[a]
    && LiteralBody(text, a + 1, b - 1, text[a])
  }

  predicate IsPlain(text: string, a: nat, b: nat) {
    && b == a + 1 <= |text| && !IsQuote(text[a])
    && !PairAt(text, a, '/', '/') && !PairAt(text, a, '/', '*')
  }

  /** `text[a..b]` is one whole lexeme. */
  predicate Lexeme(text: string, a: nat, b: nat) {
    IsLineComment(text, a, b) || IsBlockComment(text, a, b) || IsLiteral(text, a, b) || IsPlain(text, a, b)
  }

  /** `cuts` divides the text from its first to its last entry into lexemes. */
  predicate Lexed(text: string, cuts: seq<nat>) {
    && cuts != []
    && forall i | 0 <= i < |cuts| - 1 :: Lexeme(text, cuts[i], cuts[i + 1])
  }

  function Weight(text: string, a: nat): int {
    if a >= |text| then 0 else if text[a] == '{' then 1 else if text[a] == '}' then -1 else 0
  }

  /** Opening minus closing braces among the first `n` lexemes. */
  function Balance(text: string, cuts: seq<nat>, n: nat): int
    requires n <= |cuts|
  {
    if n == 0 then 0 else Balance(text, cuts, n - 1) + Weight(text, cuts[n - 1])
  }

  /** The lexemes in `cuts` bring depth `d` to zero with the last one and not before. */
  ghost predicate BringsToZero(text: string, cuts: seq<nat>, d: int) {
    && Lexed(text, cuts) && |cuts| >= 2
    && d + Balance(text, cuts, |cuts| - 1) == 0
    && forall n | 1 <= n < |cuts| - 1 :: d + Balance(text, cuts, n) > 0
  }

  ghost predicate EndsBlock(text: string, opening: nat, e: nat) {
    exists cuts: seq<nat> ::
      BringsToZero(text, cuts, 0) && cuts[0] == opening && cuts[|cuts| - 1] == e
  }

  // ---------------------------------------------------------------- the scan reads lexemes

  lemma {:induction false} ThroughLine(text: string, i: nat, b: nat, d: int)
    requires i < b <= |text| && text[b - 1] == '\n' && forall k | i <= k < b - 1 :: text[k] != '\n'
    ensures Scan(text, Config(i, LineComment, d)) == Scan(text, Config(b, Code, d))
    decreases b - i
  {
    if i < b - 1 {
      ThroughLine(text, i + 1, b, d);
    }
  }

  lemma {:induction false} ThroughComment(text: string, i: nat, b: nat, d: int)
    requires i + 2 <= b <= |text| && PairAt(text, b - 2, '*', '/')
    requires forall k | i <= k < b - 2 :: !PairAt(text, k, '*', '/')
    ensures Scan(text, Config(i, BlockComment, d)) == Scan(text, Config(b, Code, d))
    decreases b - i
  {
    if i < b - 2 {
      ThroughComment(text, i + 1, b, d);
    }
  }

  lemma {:induction false} ThroughLiteral(text: string, i: nat, j: nat, q: char, d: int)
    requires IsQuote(q) && i <= j < |text| && text[j] == q && LiteralBody(text, i, j, q)
    ensures Scan(text, Config(i, Quoted(q), d)) == Scan(text, Config(j + 1, Code, d))
    decreases j - i
  {
    if i < j {
      ThroughLiteral(text, if text[i] == '\\' then i + 2 else i + 1, j, q, d);
    }
  }

  /** The scan consumes a lexeme whole and counts its brace. */
  lemma ThroughLexeme(text: string, a: nat, b: nat, d: int)
    requires Lexeme(text, a, b) && d + Weight(text, a) >= 0
    ensures a < b <= |text|
    ensures Scan(text, Config(a, Code, d)) ==
            if text[a] == '}' && d == 1 then Some(b) else Scan(text, Config(b, Code, d + Weight(text, a)))
  {
    if IsLineComment(text, a, b) {
      ThroughLine(text, a + 2, b, d);
    } else if IsBlockComment(text, a, b) {
      ThroughComment(text, a + 2, b, d);
    } else if IsLiteral(text, a, b) {
      ThroughLiteral(text, a + 1, b - 1, text[a], d);
    }
  }

  lemma {:induction false} LineIsClosed(text: string, i: nat, d: int) returns (b: nat)
    requires Scan(text, Config(i, LineComment, d)).Some?
    ensures i < b <= |text| && text[b - 1] == '\n' && forall k | i <= k < b - 1 :: text[k] != '\n'
    decreases |text| - i
  {
    if text[i] == '\n' { b := i + 1; } else { b := LineIsClosed(text, i + 1, d); }
  }

  lemma {:induction false} CommentIsClosed(text: string, i: nat, d: int) returns (b: nat)
    requires Scan(text, Config(i, BlockComment, d)).Some?
    ensures i + 2 <= b <= |text| && PairAt(text, b - 2, '*', '/')
    ensures forall k | i <= k < b - 2 :: !PairAt(text, k, '*', '/')
    decreases |text| - i
  {
    if PairAt(text, i, '*', '/') { b := i + 2; } else { b := CommentIsClosed(text, i + 1, d); }
  }

  lemma {:induction false} LiteralIsClosed(text: string, i: nat, q: char, d: int) returns (j: nat)
    requires IsQuote(q) && Scan(text, Config(i, Quoted(q), d)).Some?
    ensures i <= j < |text| && text[j] == q && LiteralBody(text, i, j, q)
    decreases |text| - i
  {
    if text[i] == '\\' {
      j := LiteralIsClosed(text, i + 2, q, d);
    } else if text[i] == q {
      j := i;
    } else {
      j := LiteralIsClosed(text, i + 1, q, d);
    }
  }

  /** A scan that succeeds from code state starts with a whole lexeme. */
  lemma LexemeExists(text: string, a: nat, d: int) returns (b: nat)
    requires Scan(text, Config(a, Code, d)).Some?
    ensures Lexeme(text, a, b)
  {
    if PairAt(text, a, '/', '/') {
      b := LineIsClosed(text, a + 2, d);
    } else if PairAt(text, a, '/', '*') {
      b := CommentIsClosed(text, a + 2, d);
    } else if IsQuote(text[a]) {
      var j := LiteralIsClosed(text, a + 1, text[a], d);
      b := j + 1;
    } else {
      b := a + 1;
    }
  }

  lemma {:induction false} BalanceOfTail(text: string, a: nat, cuts: seq<nat>, n: nat)
    requires n <= |cuts|
    ensures Balance(text, [a] + cuts, n + 1) == Weight(text, a) + Balance(text, cuts, n)
  {
    if n > 0 {
      BalanceOfTail(text, a, cuts, n - 1);
    }
  }

  lemma {:induction false} ScanFindsLexemes(text: string, a: nat, d: int) returns (cuts: seq<nat>)
    requires Scan(text, Config(a, Code, d)).Some?
    requires d >= 1 || (d == 0 && a < |text| && text[a] == '{')
    ensures BringsToZero(text, cuts, d)
    ensures cuts[0] == a && cuts[|cuts| - 1] == Scan(text, Config(a, Code, d)).value
    decreases |text| - a
  {
    hide Lexeme, Scan;
    var b := LexemeExists(text, a, d);
    ThroughLexeme(text, a, b, d);
    var w := Weight(text, a);
    if text[a] == '}' && d == 1 {
      cuts := [a, b];
      assert Balance(text, cuts, 1) == Balance(text, cuts, 0) + w;
    } else {
      var rest := ScanFindsLexemes(text, b, d + w);
      cuts := [a] + rest;
      OneMoreLexeme(text, a, rest, d);
    }
  }

  lemma OneMoreLexeme(text: string, a: nat, rest: seq<nat>, d: int)
    requires a < |text| && BringsToZero(text, rest, d + Weight(text, a)) && Lexeme(text, a, rest[0])
    requires d + Weight(text, a) > 0
    ensures BringsToZero(text, [a] + rest, d)
  {
    hide Lexeme, Weight;
    var cuts := [a] + rest;
    forall i | 0 <= i < |cuts| - 1 ensures Lexeme(text, cuts[i], cuts[i + 1]) {
      if i > 0 {
        assert Lexeme(text, rest[i - 1], rest[i - 1 + 1]);
      }
    }
    forall n | 1 <= n < |cuts| ensures Balance(text, cuts, n) == Weight(text, a) + Balance(text, rest, n - 1) {
      BalanceOfTail(text, a, rest, n - 1);
    }
    assert Balance(text, rest, 0) == 0;
  }

  lemma {:induction false} LexemesStopScan(text: string, cuts: seq<nat>, d: int)
    requires BringsToZero(text, cuts, d)
    requires d >= 1 || (d == 0 && cuts[0] < |text| && text[cuts[0]] == '{')
    ensures Scan(text, Config(cuts[0], Code, d)) == Some(cuts[|cuts| - 1])
    decreases |cuts|
  {
    var a, rest := cuts[0], cuts[1..];
    var w := Weight(text, a);
    assert cuts == [a] + rest;
    assert Lexeme(text, cuts[0], cuts[0 + 1]);
    forall n | 0 <= n < |rest| ensures Balance(text, cuts, n + 1) == w + Balance(text, rest, n) {
      BalanceOfTail(text, a, rest, n);
    }
    assert Balance(text, rest, 0) == 0;
    if |cuts| == 2 {
      assert Balance(text, cuts, 1) == w;
      ThroughLexeme(text, a, cuts[1], d);
    } else {
      assert d + Balance(text, cuts, 1) > 0;
      ThroughLexeme(text, a, cuts[1], d);
      forall i | 0 <= i < |rest| - 1 ensures Lexeme(text, rest[i], rest[i + 1]) {
        assert Lexeme(text, cuts[i + 1], cuts[i + 1 + 1]);
      }
      assert BringsToZero(text, rest, d + w);
      LexemesStopScan(text, rest, d + w);
    }
  }

  /**
   * From an opening brace, both loops return the end of the first lexeme at which brace depth
   * returns to zero, and fail exactly when there is none.
   */
  lemma BlockEndIsLeastBalancedEnd(text: string, opening: nat, e: nat)
    requires opening < |text| && text[opening] == '{'
    ensures BlockEndOf(text, opening) == Some(e) <==> EndsBlock(text, opening, e)
  {
    if BlockEndOf(text, opening) == Some(e) {
      var cuts := ScanFindsLexemes(text, opening, 0);
    }
    if EndsBlock(text, opening, e) {
      var cuts: seq<nat> :| BringsToZero(text, cuts, 0) && cuts[0] == opening && cuts[|cuts| - 1] == e;
      LexemesStopScan(text, cuts, 0);
    }
  }
}
