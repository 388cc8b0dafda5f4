/**
 * The declaration pattern of `method`, over ASCII classes: four spaces at a line start, modifiers, a
 * type, the name, a parameter list without `;` and `{`, an optional throws clause, and a brace.
 */
module JavaDeclaration {
  import opened Sequences
  import opened JavaScan

  function Modifiers(): seq<string> {
    ["private ", "public ", "protected ", "static ", "synchronized ", "final "]
  }

  predicate WordChar(c: char) {
    'a' <= c <= 'z' || 'A' <= c <= 'Z' || '0' <= c <= '9' || c == '_'
  }

  predicate TypeChar(c: char) {
    WordChar(c) || c in "<>.[]"
  }

  predicate SpaceChar(c: char) {
    c == ' ' || 9 <= c as int <= 13 || 28 <= c as int <= 31
  }

  predicate LineStart(text: string, s: nat) {
    s <= |text| && (s == 0 || text[s - 1] == '\n')
  }

  /** `text[i..j]` is a row of modifiers. */
  predicate Modified(text: string, i: nat, j: nat)
    decreases |text| - i
  {
    i == j ||
    exists k | 0 <= k < |Modifiers()| ::
      OccursAt(text, Modifiers()[k], i) && i < i + |Modifiers()[k]| <= j && Modified(text, i + |Modifiers()[k]|, j)
  }

  predicate TypeSpan(text: string, i: nat, j: nat) {
    forall k | i <= k < j <= |text| :: TypeChar(text[k])
  }

  predicate SpaceSpan(text: string, i: nat, j: nat) {
    forall k | i <= k < j <= |text| :: SpaceChar(text[k])
  }

  predicate ParameterSpan(text: string, i: nat, j: nat) {
    forall k | i <= k < j <= |text| :: text[k] != ';' && text[k] != '{'
  }

  predicate ThrowsSpan(text: string, i: nat, j: nat) {
    forall k | i <= k < j <= |text| :: text[k] != '{'
  }

  // The pattern, part by part: what may follow from each point on.

  predicate BraceFrom(text: string, tail: nat) {
    || (tail < |text| && text[tail] == '{')
    || (OccursAt(text, "throws ", tail) &&
        exists brace | tail + 7 < brace < |text| :: ThrowsSpan(text, tail + 7, brace) && text[brace] == '{')
  }

  predicate TailFrom(text: string, i: nat) {
    exists tail | i <= tail < |text| :: SpaceSpan(text, i, tail) && BraceFrom(text, tail)
  }

  predicate CloseFrom(text: string, i: nat) {
    exists close | i <= close < |text| ::
      ParameterSpan(text, i, close) && text[close] == ')' && TailFrom(text, close + 1)
  }

  predicate OpenFrom(text: string, i: nat) {
    exists open | i <= open < |text| :: SpaceSpan(text, i, open) && text[open] == '(' && CloseFrom(text, open + 1)
  }

  predicate NameFrom(text: string, gap: nat, name: string) {
    exists at | gap < at < |text| :: SpaceSpan(text, gap, at) && OccursAt(text, name, at) && OpenFrom(text, at + |name|)
  }

  predicate TypeFrom(text: string, typ: nat, name: string) {
    exists gap | typ < gap < |text| :: TypeSpan(text, typ, gap) && NameFrom(text, gap, name)
  }

  /** The pattern matches at `s`. */
  predicate Declares(text: string, s: nat, name: string) {
    && LineStart(text, s) && OccursAt(text, "    ", s)
    && exists typ | s + 4 <= typ < |text| :: Modified(text, s + 4, typ) && TypeFrom(text, typ, name)
  }

  /** Where the parts of a declaration stand. */
  datatype Parts = Parts(typ: nat, gap: nat, name: nat, open: nat, close: nat, tail: nat, brace: nat)

  predicate Signature(text: string, s: nat, name: string, h: Parts) {
    && LineStart(text, s) && OccursAt(text, "    ", s)
    && s + 4 <= h.typ < h.gap < h.name <= h.name + |name| <= h.open < |text|
    && Modified(text, s + 4, h.typ)
    && TypeSpan(text, h.typ, h.gap)
    && SpaceSpan(text, h.gap, h.name)
    && OccursAt(text, name, h.name)
    && SpaceSpan(text, h.name + |name|, h.open)
    && text[h.open] == '('
  }

  /** One way the pattern matches at `s`. */
  predicate Declaration(text: string, s: nat, name: string, h: Parts) {
    && Signature(text, s, name, h)
    && h.open < h.close < h.tail <= h.brace < |text|
    && ParameterSpan(text, h.open + 1, h.close)
    && text[h.close] == ')'
    && SpaceSpan(text, h.close + 1, h.tail)
    && (h.tail == h.brace ||
        (OccursAt(text, "throws ", h.tail) && h.tail + 7 < h.brace && ThrowsSpan(text, h.tail + 7, h.brace)))
    && text[h.brace] == '{'
  }

  lemma DeclaresBy(text: string, s: nat, name: string, h: Parts)
    requires Declaration(text, s, name, h)
    ensures Declares(text, s, name)
  {
    hide TypeSpan, SpaceSpan, ParameterSpan, ThrowsSpan, Modified, OccursAt;
    assert BraceFrom(text, h.tail);
    assert TailFrom(text, h.close + 1);
    assert CloseFrom(text, h.open + 1);
    assert OpenFrom(text, h.name + |name|);
    assert NameFrom(text, h.gap, name);
    assert TypeFrom(text, h.typ, name);
  }

  lemma EndOf(text: string, i: nat) returns (close: nat, tail: nat, brace: nat)
    requires CloseFrom(text, i)
    ensures i <= close < tail <= brace < |text| && ParameterSpan(text, i, close) && text[close] == ')'
    ensures SpaceSpan(text, close + 1, tail) && text[brace] == '{'
    ensures tail == brace ||
            (OccursAt(text, "throws ", tail) && tail + 7 < brace && ThrowsSpan(text, tail + 7, brace))
  {
    hide SpaceSpan, ParameterSpan, ThrowsSpan, OccursAt;
    close :| i <= close < |text| && ParameterSpan(text, i, close) && text[close] == ')' && TailFrom(text, close + 1);
    tail :| close + 1 <= tail < |text| && SpaceSpan(text, close + 1, tail) && BraceFrom(text, tail);
    brace := tail;
    if text[tail] != '{' {
      brace :| tail + 7 < brace < |text| && ThrowsSpan(text, tail + 7, brace) && text[brace] == '{';
    }
  }

  /** A match can be taken apart. */
  lemma PartsOf(text: string, s: nat, name: string) returns (h: Parts)
    requires Declares(text, s, name)
    ensures Declaration(text, s, name, h)
  {
    hide TypeSpan, SpaceSpan, ParameterSpan, ThrowsSpan, Modified, OccursAt, CloseFrom;
    var typ :| s + 4 <= typ < |text| && Modified(text, s + 4, typ) && TypeFrom(text, typ, name);
    var gap :| typ < gap < |text| && TypeSpan(text, typ, gap) && NameFrom(text, gap, name);
    var at :| gap < at < |text| && SpaceSpan(text, gap, at) && OccursAt(text, name, at) && OpenFrom(text, at + |name|);
    var open :| at + |name| <= open < |text| && SpaceSpan(text, at + |name|, open) && text[open] == '('
                && CloseFrom(text, open + 1);
    var close, tail, brace := EndOf(text, open + 1);
    h := Parts(typ, gap, at, open, close, tail, brace);
  }

  lemma OccursChar(text: string, pattern: string, at: nat, k: nat)
    requires OccursAt(text, pattern, at) && at <= k < at + |pattern|
    ensures text[k] == pattern[k - at]
  {
    assert text[k] == text[at..at + |pattern|][k - at];
  }

  lemma {:induction false} NoBraceInModifiers(text: string, i: nat, j: nat, k: nat)
    requires Modified(text, i, j) && i <= k < j
    ensures j <= |text| && text[k] != '{'
    decreases |text| - i
  {
    hide Modifiers;
    var n :| 0 <= n < |Modifiers()| && OccursAt(text, Modifiers()[n], i) && i < i + |Modifiers()[n]| <= j
             && Modified(text, i + |Modifiers()[n]|, j);
    var next := i + |Modifiers()[n]|;
    if k < next {
      OccursChar(text, Modifiers()[n], i, k);
      PlainModifier(n, k - i);
      if next < j {
        NoBraceInModifiers(text, next, j, next);
      }
    } else {
      NoBraceInModifiers(text, next, j, k);
    }
  }

  lemma PlainModifier(n: nat, k: nat)
    requires n < |Modifiers()| && k < |Modifiers()[n]|
    ensures Modifiers()[n][k] != '{'
  {
    if n == 0 {} else if n == 1 {} else if n == 2 {} else if n == 3 {} else if n == 4 {} else {}
  }

  /** The brace of a match is the first brace from its start, so every match from there ends at it. */
  lemma BraceIsFirst(text: string, s: nat, name: string, h: Parts)
    requires Declaration(text, s, name, h) && '{' !in name
    ensures IndexOf(text, "{", s) == Some(h.brace)
  {
    SignatureStarts(text, s, name, h);
    hide Signature, Modified;
    forall k | s <= k < h.brace ensures !OccursAt(text, "{", k) {
      NoBraceBefore(text, s, name, h, k);
      assert text[k..k + 1][0] == text[k];
    }
    assert OccursAt(text, "{", h.brace);
  }

  lemma SignatureStarts(text: string, s: nat, name: string, h: Parts)
    requires Signature(text, s, name, h)
    ensures s <= h.open
  {
  }

  lemma NoBraceBefore(text: string, s: nat, name: string, h: Parts, k: nat)
    requires Declaration(text, s, name, h) && '{' !in name && s <= k < h.brace
    ensures text[k] != '{'
  {
    hide Modified;
    if k < s + 4 {
      OccursChar(text, "    ", s, k);
    } else if k < h.typ {
      NoBraceInModifiers(text, s + 4, h.typ, k);
    } else if h.name <= k < h.name + |name| {
      OccursChar(text, name, h.name, k);
    } else if h.tail <= k < h.tail + 7 {
      OccursChar(text, "throws ", h.tail, k);
    }
  }

  // ---------------------------------------------------------------- all matches

  /** The starts of the successive matches from `from` on; a match is searched for behind the last one. */
  function Hits(text: string, name: string, from: nat): seq<nat>
    decreases |text| - from
  {
    if from >= |text| then []
    else if Declares(text, from, name) && IndexOf(text, "{", from).Some? then
      [from] + Hits(text, name, IndexOf(text, "{", from).value + 1)
    else Hits(text, name, from + 1)
  }

  /** `s` lies inside the match that starts at the hit `t`. */
  predicate Inside(text: string, t: nat, s: nat) {
    t < s && IndexOf(text, "{", t).Some? && s <= IndexOf(text, "{", t).value
  }

  /** Every hit is a match. */
  lemma {:induction false} HitIsMatch(text: string, name: string, from: nat, s: nat)
    requires s in Hits(text, name, from)
    ensures from <= s && Declares(text, s, name)
    decreases |text| - from
  {
    hide Declares, IndexOf;
    if Declares(text, from, name) && IndexOf(text, "{", from).Some? {
      if s != from {
        HitIsMatch(text, name, IndexOf(text, "{", from).value + 1, s);
      }
    } else {
      HitIsMatch(text, name, from + 1, s);
    }
  }

  /** A match that is no hit starts inside an earlier one. */
  lemma {:induction false} MatchIsHitOrInside(text: string, name: string, from: nat, s: nat)
    requires '{' !in name && from <= s && Declares(text, s, name)
    ensures s in Hits(text, name, from) || exists t :: t in Hits(text, name, from) && Inside(text, t, s)
    decreases |text| - from
  {
    hide Declaration, Declares, IndexOf;
    var h := PartsOf(text, s, name);
    MatchIsInside(text, s, name, h);
    BraceIsFirst(text, s, name, h);
    if Declares(text, from, name) && IndexOf(text, "{", from).Some? {
      var next := IndexOf(text, "{", from).value + 1;
      assert Hits(text, name, from) == [from] + Hits(text, name, next);
      if s >= next {
        MatchIsHitOrInside(text, name, next, s);
        if s !in Hits(text, name, next) {
          var t :| t in Hits(text, name, next) && Inside(text, t, s);
          assert t in Hits(text, name, from);
        }
      } else if s > from {
        assert from in Hits(text, name, from) && Inside(text, from, s);
      }
    } else {
      assert s != from && from < |text|;
      MatchIsHitOrInside(text, name, from + 1, s);
    }
  }

  lemma MatchIsInside(text: string, s: nat, name: string, h: Parts)
    requires Declaration(text, s, name, h)
    ensures s < |text|
  {
  }

  // ---------------------------------------------------------------- where matches cannot be

  /** A match starts with a space at a line start. */
  lemma NotIndented(text: string, t: nat, name: string)
    requires t >= |text| || text[t] != ' ' || (t > 0 && text[t - 1] != '\n') || t + 4 > |text|
    ensures !Declares(text, t, name)
  {
    if OccursAt(text, "    ", t) {
      OccursChar(text, "    ", t, t);
    }
  }

  lemma {:induction false} HitsSkip(text: string, name: string, from: nat, until: nat)
    requires from <= until <= |text| && forall t: nat | from <= t < until :: !Declares(text, t, name)
    ensures Hits(text, name, from) == Hits(text, name, until)
    decreases |text| - from
  {
    hide Declares, IndexOf;
    if from < until {
      HitsSkip(text, name, from + 1, until);
    }
  }

  /** The first match is the first hit, and the search goes on behind its brace. */
  lemma HitsFirst(text: string, name: string, from: nat, s: nat, h: Parts)
    requires '{' !in name && from <= s && Declaration(text, s, name, h)
    requires forall t: nat | from <= t < s :: !Declares(text, t, name)
    ensures Hits(text, name, from) == [s] + Hits(text, name, h.brace + 1)
  {
    hide Declaration, Declares, IndexOf;
    MatchIsInside(text, s, name, h);
    DeclaresBy(text, s, name, h);
    BraceIsFirst(text, s, name, h);
    HitsSkip(text, name, from, s);
  }

  // ---------------------------------------------------------------- a match depends on the text up to its brace

  lemma OccursLocally(text: string, text': string, pattern: string, at: nat, n: nat)
    requires n <= |text| && n <= |text'| && text[..n] == text'[..n] && at + |pattern| <= n
    ensures OccursAt(text, pattern, at) <==> OccursAt(text', pattern, at)
  {
    assert text[at..at + |pattern|] == text[..n][at..at + |pattern|];
    assert text'[at..at + |pattern|] == text'[..n][at..at + |pattern|];
  }

  lemma {:induction false} ModifiedLocally(text: string, text': string, i: nat, j: nat, n: nat)
    requires j <= n <= |text| && n <= |text'| && text[..n] == text'[..n] && i <= j && Modified(text, i, j)
    ensures Modified(text', i, j)
    decreases j - i
  {
    hide Modifiers, OccursAt;
    if i < j {
      var k :| 0 <= k < |Modifiers()| && OccursAt(text, Modifiers()[k], i) && i < i + |Modifiers()[k]| <= j
               && Modified(text, i + |Modifiers()[k]|, j);
      OccursLocally(text, text', Modifiers()[k], i, n);
      ModifiedLocally(text, text', i + |Modifiers()[k]|, j, n);
    }
  }

  lemma SignatureLocally(text: string, text': string, s: nat, name: string, h: Parts, n: nat)
    requires n <= |text| && n <= |text'| && text[..n] == text'[..n] && Signature(text, s, name, h) && h.open < n
    ensures Signature(text', s, name, h)
  {
    hide Modified, OccursAt, TypeChar, SpaceChar;
    assert forall k | 0 <= k < n :: text'[k] == text'[..n][k] == text[k];
    OccursLocally(text, text', "    ", s, n);
    OccursLocally(text, text', name, h.name, n);
    ModifiedLocally(text, text', s + 4, h.typ, n);
  }

  lemma DeclarationLocally(text: string, text': string, s: nat, name: string, h: Parts)
    requires Declaration(text, s, name, h) && h.brace < |text'| && text[..h.brace + 1] == text'[..h.brace + 1]
    ensures Declaration(text', s, name, h)
  {
    hide Signature, OccursAt, SpaceChar;
    var n := h.brace + 1;
    assert forall k | 0 <= k < n :: text'[k] == text'[..n][k] == text[k];
    SignatureLocally(text, text', s, name, h, n);
    if h.tail < h.brace {
      OccursLocally(text, text', "throws ", h.tail, n);
    }
  }
}
