/** The declaration pattern against headers written out: what it matches, and that it matches nothing else. */
module JavaHeader {
  import opened JavaScan
  import opened JavaDeclaration

  /** The parts of a method header, each as its text. */
  datatype Header = Header(
    modifiers: seq<string>, typ: string, gap: string, beforeOpen: string, parameters: string, afterClose: string,
    throws: string)

  predicate ModifierWord(w: string) {
    || w == "private " || w == "public " || w == "protected " || w == "static " || w == "synchronized "
    || w == "final "
  }

  predicate TypeLetter(c: char) {
    || 'a' <= c <= 'z' || 'A' <= c <= 'Z' || '0' <= c <= '9'
    || c == '_' || c == '<' || c == '>' || c == '.' || c == '[' || c == ']'
  }

  /** Space, tab, the line breaks, and the four separators that count as white space. */
  predicate Blank(c: char) {
    || c == ' ' || c == '\t' || c == '\n' || c == '\r' || c as int == 11 || c as int == 12
    || c as int == 28 || c as int == 29 || c as int == 30 || c as int == 31
  }

  predicate Blanks(s: string) {
    forall k | 0 <= k < |s| :: Blank(s[k])
  }

  predicate Proper(h: Header) {
    && (forall k | 0 <= k < |h.modifiers| :: ModifierWord(h.modifiers[k]))
    && h.typ != "" && (forall k | 0 <= k < |h.typ| :: TypeLetter(h.typ[k]))
    && h.gap != "" && Blanks(h.gap) && Blanks(h.beforeOpen) && Blanks(h.afterClose)
    && (forall k | 0 <= k < |h.parameters| :: h.parameters[k] != ';' && h.parameters[k] != '{')
    && (h.throws == "" || ThrowsClause(h.throws))
  }

  /** The word and at least one further character, none of them an opening brace. */
  predicate ThrowsClause(s: string) {
    |s| > 7 && s[..7] == "throws " && forall k | 7 <= k < |s| :: s[k] != '{'
  }

  function Row(words: seq<string>): string {
    if words == [] then "" else words[0] + Row(words[1..])
  }

  function Front(h: Header, name: string): string {
    Row(h.modifiers) + (h.typ + (h.gap + (name + (h.beforeOpen + ("(" + Back(h))))))
  }

  function Back(h: Header): string {
    h.parameters + (")" + (h.afterClose + (h.throws + "{")))
  }

  /** The header as it stands in a file: four spaces, modifiers, type, name, parameters, throws clause, brace. */
  function Rendered(h: Header, name: string): string {
    "    " + Front(h, name)
  }

  // ---------------------------------------------------------------- pieces of text

  lemma OccursTwo(text: string, a: string, b: string, i: nat)
    ensures OccursAt(text, a + b, i) <==> OccursAt(text, a, i) && OccursAt(text, b, i + |a|)
  {
    if i + |a| + |b| <= |text| {
      assert text[i..i + |a| + |b|] == text[i..i + |a|] + text[i + |a|..i + |a| + |b|];
      assert text[i..i + |a| + |b|][..|a|] == text[i..i + |a|];
      assert text[i..i + |a| + |b|][|a|..] == text[i + |a|..i + |a| + |b|];
      assert (a + b)[..|a|] == a && (a + b)[|a|..] == b;
    }
  }

  lemma OccursSlice(text: string, i: nat, j: nat)
    requires i <= j <= |text|
    ensures OccursAt(text, text[i..j], i)
  {
  }

  lemma OccursIsSlice(text: string, piece: string, i: nat)
    requires OccursAt(text, piece, i)
    ensures i + |piece| <= |text| && text[i..i + |piece|] == piece
  {
  }

  lemma OccursOne(text: string, c: char, i: nat)
    ensures OccursAt(text, [c], i) <==> i < |text| && text[i] == c
  {
    if i < |text| {
      assert text[i..i + 1] == [text[i]];
    }
  }

  lemma SameClasses(c: char)
    ensures TypeChar(c) <==> TypeLetter(c)
    ensures SpaceChar(c) <==> Blank(c)
  {
  }

  lemma ModifierIsWord(w: string)
    ensures ModifierWord(w) <==> exists k | 0 <= k < |Modifiers()| :: Modifiers()[k] == w
  {
    var m := Modifiers();
    assert m[0] == "private " && m[1] == "public " && m[2] == "protected " && m[3] == "static ";
    assert m[4] == "synchronized " && m[5] == "final ";
  }

  lemma WordIsLong(w: string)
    requires ModifierWord(w)
    ensures |w| > 0
  {
  }

  // ---------------------------------------------------------------- rows of modifiers

  lemma {:induction false} RowIsModified(text: string, words: seq<string>, i: nat)
    requires OccursAt(text, Row(words), i) && forall k | 0 <= k < |words| :: ModifierWord(words[k])
    ensures Modified(text, i, i + |Row(words)|)
    decreases |words|
  {
    hide Modifiers, OccursAt, ModifierWord;
    if words != [] {
      OccursTwo(text, words[0], Row(words[1..]), i);
      RowIsModified(text, words[1..], i + |words[0]|);
      ModifierIsWord(words[0]);
      WordIsLong(words[0]);
    }
  }

  lemma {:induction false} ModifiedIsRow(text: string, i: nat, j: nat) returns (words: seq<string>)
    requires Modified(text, i, j) && i <= j <= |text|
    ensures Row(words) == text[i..j] && forall k | 0 <= k < |words| :: ModifierWord(words[k])
    decreases j - i
  {
    hide Modifiers, ModifierWord, OccursAt;
    if i == j {
      words := [];
    } else {
      var k :| 0 <= k < |Modifiers()| && OccursAt(text, Modifiers()[k], i) && i < i + |Modifiers()[k]| <= j
               && Modified(text, i + |Modifiers()[k]|, j);
      var word := Modifiers()[k];
      var rest := ModifiedIsRow(text, i + |word|, j);
      words := [word] + rest;
      assert words[1..] == rest;
      ModifierIsWord(word);
      OccursIsSlice(text, word, i);
      assert text[i..j] == text[i..i + |word|] + text[i + |word|..j];
    }
  }

  // ---------------------------------------------------------------- spans

  lemma PieceChars(text: string, piece: string, i: nat)
    requires OccursAt(text, piece, i)
    ensures forall k | i <= k < i + |piece| :: text[k] == piece[k - i]
  {
    forall k | i <= k < i + |piece| ensures text[k] == piece[k - i] {
      OccursChar(text, piece, i, k);
    }
  }

  lemma TypePiece(text: string, piece: string, i: nat)
    requires OccursAt(text, piece, i)
    ensures TypeSpan(text, i, i + |piece|) <==> forall k | 0 <= k < |piece| :: TypeLetter(piece[k])
  {
    hide TypeChar, TypeLetter, OccursAt;
    PieceFits(text, piece, i);
    PieceChars(text, piece, i);
    forall k | 0 <= k < |piece| ensures text[i + k] == piece[k] && (TypeChar(piece[k]) <==> TypeLetter(piece[k])) {
      SameClasses(piece[k]);
    }
    if TypeSpan(text, i, i + |piece|) {
      forall k | 0 <= k < |piece| ensures TypeLetter(piece[k]) {
        assert TypeChar(text[i + k]);
      }
    }
  }

  lemma SpacePiece(text: string, piece: string, i: nat)
    requires OccursAt(text, piece, i)
    ensures SpaceSpan(text, i, i + |piece|) <==> Blanks(piece)
  {
    hide SpaceChar, Blank, OccursAt;
    PieceFits(text, piece, i);
    PieceChars(text, piece, i);
    forall k | 0 <= k < |piece| ensures text[i + k] == piece[k] && (SpaceChar(piece[k]) <==> Blank(piece[k])) {
      SameClasses(piece[k]);
    }
    if SpaceSpan(text, i, i + |piece|) {
      forall k | 0 <= k < |piece| ensures Blank(piece[k]) {
        assert SpaceChar(text[i + k]);
      }
    }
  }

  lemma ParameterPiece(text: string, piece: string, i: nat)
    requires OccursAt(text, piece, i)
    ensures ParameterSpan(text, i, i + |piece|) <==> forall k | 0 <= k < |piece| :: piece[k] != ';' && piece[k] != '{'
  {
    hide OccursAt;
    PieceChars(text, piece, i);
    PieceFits(text, piece, i);
    forall k | 0 <= k < |piece| ensures text[i + k] == piece[k] {}
  }

  lemma ThrowsPiece(text: string, piece: string, i: nat)
    requires OccursAt(text, piece, i) && |piece| > 7
    ensures ThrowsClause(piece) <==> OccursAt(text, "throws ", i) && ThrowsSpan(text, i + 7, i + |piece|)
  {
    PieceChars(text, piece, i);
    PieceFits(text, piece, i);
    forall k | 0 <= k < |piece| ensures text[i + k] == piece[k] {}
    assert piece[..7] == text[i..i + 7];
  }

  lemma PieceFits(text: string, piece: string, i: nat)
    requires OccursAt(text, piece, i)
    ensures i + |piece| <= |text|
  {
  }

  // ---------------------------------------------------------------- rendered headers match

  lemma BackMatches(text: string, h: Header, i: nat)
    requires Proper(h) && OccursAt(text, Back(h), i)
    ensures CloseFrom(text, i)
  {
    hide OccursAt, Blanks, ThrowsClause;
    var close := i + |h.parameters|;
    var tail := close + 1 + |h.afterClose|;
    var brace := tail + |h.throws|;
    OccursTwo(text, h.parameters, ")" + (h.afterClose + (h.throws + "{")), i);
    OccursTwo(text, ")", h.afterClose + (h.throws + "{"), close);
    OccursTwo(text, h.afterClose, h.throws + "{", close + 1);
    OccursTwo(text, h.throws, "{", tail);
    OccursOne(text, ')', close);
    OccursOne(text, '{', brace);
    ParameterPiece(text, h.parameters, i);
    SpacePiece(text, h.afterClose, close + 1);
    if h.throws != "" {
      ThrowsIsLong(h.throws);
      ThrowsPiece(text, h.throws, tail);
    }
    assert BraceFrom(text, tail);
    assert TailFrom(text, close + 1);
  }

  lemma ThrowsIsLong(s: string)
    requires ThrowsClause(s)
    ensures |s| > 7
  {
  }

  lemma RenderedMatches(text: string, s: nat, name: string, h: Header)
    requires Proper(h) && LineStart(text, s) && OccursAt(text, Rendered(h, name), s)
    ensures Declares(text, s, name)
  {
    hide OccursAt, Blanks, ThrowsClause, Row, Back, CloseFrom, Modified;
    var typ := s + 4 + |Row(h.modifiers)|;
    var gap := typ + |h.typ|;
    var at := gap + |h.gap|;
    var open := at + |name| + |h.beforeOpen|;
    OccursTwo(text, "    ", Front(h, name), s);
    OccursTwo(text, Row(h.modifiers), h.typ + (h.gap + (name + (h.beforeOpen + ("(" + Back(h))))), s + 4);
    OccursTwo(text, h.typ, h.gap + (name + (h.beforeOpen + ("(" + Back(h)))), typ);
    OccursTwo(text, h.gap, name + (h.beforeOpen + ("(" + Back(h))), gap);
    OccursTwo(text, name, h.beforeOpen + ("(" + Back(h)), at);
    OccursTwo(text, h.beforeOpen, "(" + Back(h), at + |name|);
    OccursTwo(text, "(", Back(h), open);
    OccursOne(text, '(', open);
    RowIsModified(text, h.modifiers, s + 4);
    TypePiece(text, h.typ, typ);
    SpacePiece(text, h.gap, gap);
    SpacePiece(text, h.beforeOpen, at + |name|);
    BackMatches(text, h, open + 1);
    assert OpenFrom(text, at + |name|);
    assert NameFrom(text, gap, name);
    assert TypeFrom(text, typ, name);
  }

  // ---------------------------------------------------------------- nothing else matches

  lemma BackOf(text: string, p: Parts, h: Header)
    requires p.open < p.close < p.tail <= p.brace < |text| && text[p.close] == ')' && text[p.brace] == '{'
    requires h.parameters == text[p.open + 1..p.close] && h.afterClose == text[p.close + 1..p.tail]
    requires h.throws == text[p.tail..p.brace]
    ensures OccursAt(text, Back(h), p.open + 1)
  {
    hide OccursAt;
    OccursSlice(text, p.open + 1, p.close);
    OccursSlice(text, p.close + 1, p.tail);
    OccursSlice(text, p.tail, p.brace);
    OccursOne(text, ')', p.close);
    OccursOne(text, '{', p.brace);
    OccursTwo(text, h.throws, "{", p.tail);
    OccursTwo(text, h.afterClose, h.throws + "{", p.close + 1);
    OccursTwo(text, ")", h.afterClose + (h.throws + "{"), p.close);
    OccursTwo(text, h.parameters, ")" + (h.afterClose + (h.throws + "{")), p.open + 1);
  }

  lemma MatchIsRendered(text: string, s: nat, name: string) returns (h: Header)
    requires Declares(text, s, name)
    ensures Proper(h) && OccursAt(text, Rendered(h, name), s)
  {
    hide Declares;
    var p := PartsOf(text, s, name);
    PartsFit(text, s, name, p);
    var words := ModifiedIsRow(text, s + 4, p.typ);
    h := Header(words, text[p.typ..p.gap], text[p.gap..p.name], text[p.name + |name|..p.open],
                text[p.open + 1..p.close], text[p.close + 1..p.tail], text[p.tail..p.brace]);
    BackOf(text, p, h);
    FrontOf(text, s, name, p, h);
    PartsAreProper(text, s, name, p, h);
  }

  lemma PartsFit(text: string, s: nat, name: string, p: Parts)
    requires Declaration(text, s, name, p)
    ensures s + 4 <= p.typ < p.gap < p.name <= p.name + |name| <= p.open < p.close < p.tail <= p.brace < |text|
    ensures Modified(text, s + 4, p.typ) && OccursAt(text, "    ", s) && OccursAt(text, name, p.name)
    ensures text[p.open] == '(' && text[p.close] == ')' && text[p.brace] == '{'
    ensures TypeSpan(text, p.typ, p.gap) && SpaceSpan(text, p.gap, p.name) && SpaceSpan(text, p.name + |name|, p.open)
    ensures ParameterSpan(text, p.open + 1, p.close) && SpaceSpan(text, p.close + 1, p.tail)
    ensures p.tail < p.brace ==>
              OccursAt(text, "throws ", p.tail) && p.tail + 7 < p.brace && ThrowsSpan(text, p.tail + 7, p.brace)
  {
    hide Modified, TypeSpan, SpaceSpan, ParameterSpan, ThrowsSpan, OccursAt;
  }

  lemma FrontOf(text: string, s: nat, name: string, p: Parts, h: Header)
    requires s + 4 <= p.typ < p.gap < p.name <= p.name + |name| <= p.open < p.close < |text|
    requires OccursAt(text, "    ", s) && OccursAt(text, name, p.name) && text[p.open] == '('
    requires Row(h.modifiers) == text[s + 4..p.typ] && h.typ == text[p.typ..p.gap] && h.gap == text[p.gap..p.name]
    requires h.beforeOpen == text[p.name + |name|..p.open] && OccursAt(text, Back(h), p.open + 1)
    ensures OccursAt(text, Rendered(h, name), s)
  {
    hide OccursAt, Row, Back;
    OccursSlice(text, s + 4, p.typ);
    OccursSlice(text, p.typ, p.gap);
    OccursSlice(text, p.gap, p.name);
    OccursSlice(text, p.name + |name|, p.open);
    OccursOne(text, '(', p.open);
    OccursTwo(text, "(", Back(h), p.open);
    OccursTwo(text, h.beforeOpen, "(" + Back(h), p.name + |name|);
    OccursTwo(text, name, h.beforeOpen + ("(" + Back(h)), p.name);
    OccursTwo(text, h.gap, name + (h.beforeOpen + ("(" + Back(h))), p.gap);
    OccursTwo(text, h.typ, h.gap + (name + (h.beforeOpen + ("(" + Back(h)))), p.typ);
    OccursTwo(text, Row(h.modifiers), h.typ + (h.gap + (name + (h.beforeOpen + ("(" + Back(h))))), s + 4);
    OccursTwo(text, "    ", Front(h, name), s);
  }

  lemma PartsAreProper(text: string, s: nat, name: string, p: Parts, h: Header)
    requires Declaration(text, s, name, p)
    requires s + 4 <= p.typ < p.gap < p.name <= p.name + |name| <= p.open < p.close < p.tail <= p.brace < |text|
    requires forall k | 0 <= k < |h.modifiers| :: ModifierWord(h.modifiers[k])
    requires h == Header(h.modifiers, text[p.typ..p.gap], text[p.gap..p.name], text[p.name + |name|..p.open],
                         text[p.open + 1..p.close], text[p.close + 1..p.tail], text[p.tail..p.brace])
    ensures Proper(h)
  {
    hide Declaration, ModifierWord, OccursAt, Blanks, ThrowsClause, TypeLetter;
    hide TypeSpan, SpaceSpan, ParameterSpan, ThrowsSpan;
    PartsFit(text, s, name, p);
    OccursSlice(text, p.typ, p.gap);
    OccursSlice(text, p.gap, p.name);
    OccursSlice(text, p.name + |name|, p.open);
    OccursSlice(text, p.open + 1, p.close);
    OccursSlice(text, p.close + 1, p.tail);
    OccursSlice(text, p.tail, p.brace);
    TypePiece(text, h.typ, p.typ);
    SpacePiece(text, h.gap, p.gap);
    SpacePiece(text, h.beforeOpen, p.name + |name|);
    ParameterPiece(text, h.parameters, p.open + 1);
    SpacePiece(text, h.afterClose, p.close + 1);
    if p.tail < p.brace {
      ThrowsPiece(text, h.throws, p.tail);
    }
  }

  /**
   * The pattern matches at `s` if and only if a proper header of that name, written out, stands there
   * at a line start, whatever precedes and follows it.
   */
  lemma DeclaresIffRendered(text: string, s: nat, name: string)
    ensures Declares(text, s, name) <==>
            s <= |text| && (s == 0 || text[s - 1] == '\n')
            && exists h :: Proper(h) && OccursAt(text, Rendered(h, name), s)
  {
    hide OccursAt, Rendered, Proper;
    if Declares(text, s, name) {
      var h := MatchIsRendered(text, s, name);
    }
    if s <= |text| && (s == 0 || text[s - 1] == '\n')
       && exists h :: Proper(h) && OccursAt(text, Rendered(h, name), s) {
      var h :| Proper(h) && OccursAt(text, Rendered(h, name), s);
      RenderedMatches(text, s, name, h);
    }
  }
}
