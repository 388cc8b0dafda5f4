/**
 * `method`: deleting a Java method from a producer file, or replacing its body.  What is proved is
 * that the splice does not disturb the block around the method.
 */
module JavaSplice {
  import opened Sequences
  import opened JavaScan
  import opened JavaDeclaration

  // ---------------------------------------------------------------- the operation

  /** What the replaced body is followed by. */
  const TAIL: string := "\n    }"

  function Spliced(text: string, hits: seq<nat>, body: Option<string>): Option<string> {
    if |hits| != 1 || hits[0] > |text| then None
    else
      match ExtentFrom(text, hits[0])
      case None => None
      case Some(extent) =>
        var replacement := if body.None? then "" else text[hits[0]..extent.0 + 1] + body.value + TAIL;
        Some(text[..hits[0]] + replacement + text[extent.1..])
  }

  method SpliceMethod(text: string, name: string, body: Option<string>) returns (r: Option<string>)
    ensures r == Spliced(text, Hits(text, name, 0), body)
  {
    var hits := Hits(text, name, 0);
    if |hits| != 1 { return None; }
    var start := hits[0];
    var opening := IndexOf(text, "{", start);
    if opening.None? { return None; }
    var end := BlockEnd(text, opening.value);
    if end.None? { return None; }
    ScanBounds(text, Config(opening.value, Code, 0));
    var replacement := "";
    if body.Some? {
      replacement := text[start..opening.value + 1] + body.value + TAIL;
    }
    r := Some(text[..start] + replacement + text[end.value..]);
  }

  /**
   * A splice succeeds exactly when the pattern has one hit and the block at its brace closes; then
   * every way the pattern matches there ends at that brace, and nothing else outside it matches.
   */
  lemma SpliceFindsOneDeclaration(text: string, name: string, body: Option<string>)
    requires '{' !in name
    ensures Spliced(text, Hits(text, name, 0), body).Some? <==>
            var hits := Hits(text, name, 0);
            |hits| == 1 && exists h :: Declaration(text, hits[0], name, h) && BlockEndOf(text, h.brace).Some?
    ensures Spliced(text, Hits(text, name, 0), body).Some? ==>
              var s := Hits(text, name, 0)[0];
              && LineStart(text, s) && ExtentFrom(text, s).Some?
              && (forall h | Declaration(text, s, name, h) :: ExtentFrom(text, s).value.0 == h.brace)
              && (forall t: nat | Declares(text, t, name) && t != s :: s < t < ExtentFrom(text, s).value.0)
  {
    hide Declaration, Declares, IndexOf, Scan;
    var hits := Hits(text, name, 0);
    if |hits| == 1 {
      var s := hits[0];
      assert s in hits;
      HitIsMatch(text, name, 0, s);
      var h0 := PartsOf(text, s, name);
      forall h | Declaration(text, s, name, h) ensures IndexOf(text, "{", s) == Some(h.brace) && LineStart(text, s) {
        BraceIsFirst(text, s, name, h);
        DeclarationStarts(text, s, name, h);
      }
      assert hits == [s];
      forall t: nat | Declares(text, t, name) && t != s ensures s < t < h0.brace {
        MatchIsHitOrInside(text, name, 0, t);
        var h := PartsOf(text, t, name);
        DeclarationStarts(text, t, name, h);
      }
    }
  }

  lemma DeclarationStarts(text: string, s: nat, name: string, h: Parts)
    requires Declaration(text, s, name, h)
    ensures LineStart(text, s) && s < |text| && text[s] == ' ' && text[h.brace] == '{'
  {
    OccursChar(text, "    ", s, s);
  }

  // ---------------------------------------------------------------- runs of the scan

  /** The scan started in `c` passes through `t` without closing a block to depth zero. */
  predicate Reach(text: string, c: Config, t: Config)
    decreases |text| - c.at
  {
    c == t ||
    (c.at < |text| && Step(text, c).Go? && Reach(text, Step(text, c).next, t))
  }

  lemma {:induction false} ReachScan(text: string, c: Config, t: Config)
    requires Reach(text, c, t)
    ensures c.at <= t.at && Scan(text, c) == Scan(text, t)
    decreases |text| - c.at
  {
    if c != t {
      ReachScan(text, Step(text, c).next, t);
    }
  }

  lemma {:induction false} ReachTransitive(text: string, a: Config, b: Config, c: Config)
    requires Reach(text, a, b) && Reach(text, b, c)
    ensures Reach(text, a, c)
    decreases |text| - a.at
  {
    if a != b {
      ReachTransitive(text, Step(text, a).next, b, c);
    }
  }

  /** Depth stays positive until the block closes. */
  lemma {:induction false} ReachStaysOpen(text: string, c: Config, t: Config)
    requires Reach(text, c, t) && c.depth >= 1
    ensures t.depth >= 1
    decreases |text| - c.at
  {
    if c != t {
      ReachStaysOpen(text, Step(text, c).next, t);
    }
  }

  lemma StepDeeper(text: string, c: Config, k: nat)
    requires k >= 1 && c.depth >= 1 && c.at < |text|
    ensures Step(text, c.(depth := c.depth + k)) ==
            match Step(text, c)
            case Close(e) => Go(Config(e, Code, k))
            case Go(n) => Go(n.(depth := n.depth + k))
    ensures Step(text, c).Go? ==> Step(text, c).next.depth >= 1 && c.at < Step(text, c).next.at
  {
  }

  /** Inside `k` further blocks, a block that closes at `e` is passed over, and the scan goes on at `e`. */
  lemma {:induction false} BlockIsPassedOver(text: string, c: Config, k: nat)
    requires k >= 1 && c.depth >= 1 && Scan(text, c).Some?
    ensures Reach(text, c.(depth := c.depth + k), Config(Scan(text, c).value, Code, k))
    decreases |text| - c.at
  {
    hide Step;
    StepDeeper(text, c, k);
    if Step(text, c).Go? {
      BlockIsPassedOver(text, Step(text, c).next, k);
    }
  }

  /** What closes inside `k` further blocks closes without them. */
  lemma {:induction false} ShallowerCloses(text: string, c: Config, k: nat)
    requires c.depth >= 1 && Scan(text, c.(depth := c.depth + k)).Some?
    ensures Scan(text, c).Some?
    decreases |text| - c.at
  {
    hide Step;
    if k > 0 {
      StepDeeper(text, c, k);
      if Step(text, c).Go? {
        ShallowerCloses(text, Step(text, c).next, k);
      }
    }
  }

  // ---------------------------------------------------------------- the scan is local

  function Later(c: Config, off: nat): Config {
    c.(at := c.at + off)
  }

  function Shifted(r: Option<nat>, off: int): Option<int> {
    if r.None? then None else Some(r.value + off)
  }

  predicate PairChar(c: char) {
    c == '/' || c == '*'
  }

  /** `small` occurs in `big` at `off`, and no comment mark begins in it and ends beyond it. */
  predicate Within(small: string, big: string, off: nat) {
    && off + |small| <= |big| && big[off..off + |small|] == small
    && (off + |small| == |big| || small == [] || !PairChar(small[|small| - 1]) || !PairChar(big[off + |small|]))
  }

  lemma StepWithin(small: string, big: string, off: nat, c: Config)
    requires Within(small, big, off) && c.at < |small|
    ensures Step(big, Later(c, off)) ==
            match Step(small, c) case Close(e) => Close(e + off) case Go(n) => Go(Later(n, off))
  {
    assert forall k | 0 <= k < |small| :: small[k] == big[off + k];
  }

  /** A run inside `small` is the same run inside `big`. */
  lemma {:induction false} ReachWithin(small: string, big: string, off: nat, c: Config, t: Config)
    requires Within(small, big, off) && t.at <= |small|
    ensures Reach(small, c, t) <==> Reach(big, Later(c, off), Later(t, off))
    decreases |small| - c.at
  {
    if Later(c, off) != Later(t, off) {
      if c.at < |small| {
        StepWithin(small, big, off, c);
        if Step(small, c).Go? {
          ReachWithin(small, big, off, Step(small, c).next, t);
        }
      } else if Reach(big, Later(c, off), Later(t, off)) {
        ReachGoesForward(big, Later(c, off), Later(t, off));
      }
    }
  }

  lemma {:induction false} ReachGoesForward(text: string, c: Config, t: Config)
    requires Reach(text, c, t) && c != t
    ensures c.at < t.at
    decreases |text| - c.at
  {
    if Step(text, c).next != t {
      ReachGoesForward(text, Step(text, c).next, t);
    }
  }

  /** What a scan does from some point depends only on the text from there on. */
  lemma {:induction false} ScanOfSuffix(small: string, big: string, off: nat, c: Config)
    requires Within(small, big, off) && off + |small| == |big|
    ensures Shifted(Scan(big, Later(c, off)), 0) == Shifted(Scan(small, c), off)
    decreases |small| - c.at
  {
    if c.at < |small| {
      StepWithin(small, big, off, c);
      if Step(small, c).Go? {
        ScanOfSuffix(small, big, off, Step(small, c).next);
      }
    }
  }

  // ---------------------------------------------------------------- headers and bodies

  /** No quote and no comment mark begins in `text[a..b]`. */
  predicate NoQuoteOrComment(text: string, a: nat, b: nat) {
    forall k | a <= k < b <= |text| :: !IsQuote(text[k]) && !PairAt(text, k, '/', '/') && !PairAt(text, k, '/', '*')
  }

  /** How many closing braces `s` holds. */
  function Closers(s: string): (n: nat)
    ensures n == 0 <==> '}' !in s
  {
    if s == [] then 0 else Closers(s[1..]) + if s[0] == '}' then 1 else 0
  }

  lemma PlainStep(text: string, a: nat, d: int)
    requires a < |text| && text[a] != '{' && !IsQuote(text[a])
    requires !PairAt(text, a, '/', '/') && !PairAt(text, a, '/', '*')
    ensures Step(text, Config(a, Code, d)) ==
            if text[a] != '}' then Go(Config(a + 1, Code, d))
            else if d == 1 then Close(a + 1) else Go(Config(a + 1, Code, d - 1))
  {
  }

  /** One step of a run, forwards. */
  lemma OneStep(text: string, c: Config, n: Config)
    requires c.at < |text| && Step(text, c) == Go(n)
    ensures Scan(text, c) == Scan(text, n)
    ensures forall t | Reach(text, n, t) :: Reach(text, c, t)
  {
    hide Step;
  }

  lemma ClosingStep(text: string, c: Config, e: nat)
    requires c.at < |text| && Step(text, c) == Close(e)
    ensures Scan(text, c) == Some(e)
  {
    hide Step;
  }

  lemma NoClosers()
    ensures Closers("") == 0
  {
  }

  lemma ClosersOfRest(text: string, a: nat, b: nat)
    requires a < b <= |text|
    ensures Closers(text[a..b]) == Closers(text[a + 1..b]) + if text[a] == '}' then 1 else 0
  {
    assert text[a..b][0] == text[a] && text[a..b][1..] == text[a + 1..b];
  }

  /** A header only lowers the depth, once for each closing brace, unless that closes the block. */
  lemma {:induction false} ThroughHeader(text: string, a: nat, b: nat, d: nat)
    requires a <= b <= |text| && '{' !in text[a..b] && NoQuoteOrComment(text, a, b) && d >= 1
    ensures Closers(text[a..b]) < d ==>
              Reach(text, Config(a, Code, d), Config(b, Code, d - Closers(text[a..b])))
    ensures Closers(text[a..b]) >= d ==>
              Scan(text, Config(a, Code, d)).Some? && Scan(text, Config(a, Code, d)).value <= b
    decreases b - a
  {
    hide Step, Closers, Scan;
    if a == b {
      assert text[a..b] == "" && Closers("") == 0 by { NoClosers(); }
    } else {
      ClosersOfRest(text, a, b);
      PlainStep(text, a, d);
      assert text[a] == text[a..b][0] && forall x :: x in text[a + 1..b] ==> x in text[a..b];
      if text[a] != '}' {
        ThroughHeader(text, a + 1, b, d);
        OneStep(text, Config(a, Code, d), Config(a + 1, Code, d));
      } else if d > 1 {
        ThroughHeader(text, a + 1, b, d - 1);
        OneStep(text, Config(a, Code, d), Config(a + 1, Code, d - 1));
      } else {
        ClosingStep(text, Config(a, Code, d), a + 1);
      }
    }
  }

  /** `body` can be read from code state at depth `d` back to depth `d`, in code or in a line comment. */
  predicate Rescans(body: string, d: int) {
    || Reach(body, Config(0, Code, d), Config(|body|, Code, d))
    || Reach(body, Config(0, Code, d), Config(|body|, LineComment, d))
  }

  /** Spaces in code state change nothing. */
  lemma {:induction false} ThroughSpaces(text: string, a: nat, b: nat, d: int)
    requires a <= b <= |text| && forall k | a <= k < b :: text[k] == ' '
    ensures Reach(text, Config(a, Code, d), Config(b, Code, d))
    decreases b - a
  {
    if a < b {
      ThroughSpaces(text, a + 1, b, d);
    }
  }

  /** A replaced body and its closing brace take the scan from depth `d + 1` to depth `d`. */
  lemma ThroughBody(text: string, at: nat, body: string, d: int)
    requires Rescans(body, d + 1) && at + |body| + |TAIL| <= |text|
    requires text[at..at + |body| + |TAIL|] == body + TAIL
    ensures d >= 1 ==> Reach(text, Config(at, Code, d + 1), Config(at + |body| + |TAIL|, Code, d))
    ensures d == 0 ==> Scan(text, Config(at, Code, d + 1)) == Some(at + |body| + |TAIL|)
  {
    hide Step, Within;
    var mode := if Reach(body, Config(0, Code, d + 1), Config(|body|, Code, d + 1)) then Code else LineComment;
    var p := at + |body|;
    TailCharacters(text, at, body);
    ReachWithin(body, text, at, Config(0, Code, d + 1), Config(|body|, mode, d + 1));
    TailSteps(text, p, mode, d);
    ThroughSpaces(text, p + 1, p + 5, d + 1);
    ReachTransitive(text, Config(at, Code, d + 1), Config(p, mode, d + 1), Config(p + 5, Code, d + 1));
    ReachScan(text, Config(at, Code, d + 1), Config(p + 5, Code, d + 1));
    if d >= 1 {
      ReachTransitive(text, Config(at, Code, d + 1), Config(p + 5, Code, d + 1), Config(p + 6, Code, d));
    }
  }

  lemma TailCharacters(text: string, at: nat, body: string)
    requires at + |body| + |TAIL| <= |text| && text[at..at + |body| + |TAIL|] == body + TAIL
    ensures Within(body, text, at)
    ensures var p := at + |body|;
            text[p] == '\n' && text[p + 5] == '}' && forall k | p + 1 <= k < p + 5 :: text[k] == ' '
  {
    var piece := text[at..at + |body| + |TAIL|];
    assert text[at..at + |body|] == piece[..|body|] == body;
    assert forall k | 0 <= k < |TAIL| :: text[at + |body| + k] == piece[|body| + k] == TAIL[k];
    assert text[at + |body| + 0] == TAIL[0];
    forall k | at + |body| + 1 <= k < at + |body| + 5 ensures text[k] == ' ' {
      assert text[at + |body| + (k - at - |body|)] == TAIL[k - at - |body|];
    }
  }

  lemma TailSteps(text: string, p: nat, mode: Mode, d: int)
    requires p + 6 <= |text| && text[p] == '\n' && text[p + 5] == '}' && (mode == Code || mode == LineComment)
    ensures Step(text, Config(p, mode, d + 1)) == Go(Config(p + 1, Code, d + 1))
    ensures Step(text, Config(p + 5, Code, d + 1)) == if d == 0 then Close(p + 6) else Go(Config(p + 6, Code, d))
  {
  }

  // ---------------------------------------------------------------- the block around the method

  /** The scan of the block opened at `o` is in code state, `d` blocks deep, at the line start `s`. */
  predicate Enclosing(text: string, o: nat, s: nat, d: int) {
    && o < s <= |text| && text[o] == '{' && text[s - 1] == '\n'
    && Reach(text, Config(o, Code, 0), Config(s, Code, d))
  }

  lemma EnclosingIsDeep(text: string, o: nat, s: nat, d: int)
    requires Enclosing(text, o, s, d)
    ensures d >= 1 && Reach(text, Config(o, Code, 0), Config(s, Code, d))
  {
    ReachStaysOpen(text, Config(o + 1, Code, 1), Config(s, Code, d));
  }

  /** The text before a line start is scanned alike whatever follows it. */
  lemma EnclosingElsewhere(text: string, text': string, o: nat, s: nat, d: int)
    requires Enclosing(text, o, s, d) && s <= |text'| && text'[..s] == text[..s]
    ensures Enclosing(text', o, s, d)
  {
    var small := text[..s];
    assert text[0..0 + |small|] == small && text'[0..0 + |small|] == small;
    assert Within(small, text, 0) && Within(small, text', 0);
    ReachWithin(small, text, 0, Config(o, Code, 0), Config(s, Code, d));
    ReachWithin(small, text', 0, Config(o, Code, 0), Config(s, Code, d));
    assert text'[o] == small[o] && text'[s - 1] == small[s - 1];
  }

  /** Two scans that stand at the same depth before the same remaining text end equally far into it. */
  lemma SameRest(text: string, e: nat, text': string, e': nat, d: int)
    requires e <= |text| && e' <= |text'| && text[e..] == text'[e'..]
    ensures Shifted(Scan(text', Config(e', Code, d)), 0) == Shifted(Scan(text, Config(e, Code, d)), e' - e)
  {
    hide Scan;
    var rest := text[e..];
    assert text[e..e + |rest|] == rest && text'[e'..e' + |rest|] == rest;
    ScanOfSuffix(rest, text, e, Config(0, Code, d));
    ScanOfSuffix(rest, text', e', Config(0, Code, d));
  }

  /** Passing over a whole method block, at the depth of the opening brace. */
  lemma ThroughBlock(text: string, opening: nat, end: nat, d: nat)
    requires d >= 1 && opening < |text| && text[opening] == '{' && BlockEndOf(text, opening) == Some(end)
    ensures Reach(text, Config(opening, Code, d), Config(end, Code, d))
  {
    assert Step(text, Config(opening, Code, 0)) == Go(Config(opening + 1, Code, 1));
    BlockIsPassedOver(text, Config(opening + 1, Code, 1), d);
    assert Step(text, Config(opening, Code, d)) == Go(Config(opening + 1, Code, d + 1));
  }

  lemma ExtentCloses(text: string, s: nat)
    requires ExtentFrom(text, s).Some?
    ensures BlockEndOf(text, ExtentFrom(text, s).value.0) == Some(ExtentFrom(text, s).value.1)
  {
    hide Scan;
  }

  /** The depth at which the scan arrives behind the method, when its header holds few enough braces. */
  lemma BehindMethod(text: string, o: nat, s: nat, d: nat, opening: nat, end: nat)
    requires Enclosing(text, o, s, d) && ExtentFrom(text, s) == Some((opening, end))
    requires NoQuoteOrComment(text, s, opening) && Closers(text[s..opening]) < d
    ensures BlockEndOf(text, o) == Scan(text, Config(end, Code, d - Closers(text[s..opening])))
    ensures Reach(text, Config(o, Code, 0), Config(opening, Code, d - Closers(text[s..opening])))
  {
    hide Scan, Reach, Step, Closers, NoQuoteOrComment;
    var left := d - Closers(text[s..opening]);
    ExtentCloses(text, s);
    ThroughHeader(text, s, opening, d);
    ThroughBlock(text, opening, end, left);
    ReachScan(text, Config(opening, Code, left), Config(end, Code, left));
    ReachTransitive(text, Config(o, Code, 0), Config(s, Code, d), Config(opening, Code, left));
    ReachScan(text, Config(o, Code, 0), Config(opening, Code, left));
  }

  lemma OpeningStep(text: string, opening: nat, d: int)
    requires opening < |text| && text[opening] == '{'
    ensures Scan(text, Config(opening, Code, d)) == Scan(text, Config(opening + 1, Code, d + 1))
  {
  }

  lemma DeletedParts(text: string, s: nat, text': string)
    requires Spliced(text, [s], None) == Some(text')
    ensures s <= |text| && ExtentFrom(text, s).Some?
    ensures text' == text[..s] + text[ExtentFrom(text, s).value.1..]
    ensures s <= |text'| && text'[..s] == text[..s] && text'[s..] == text[ExtentFrom(text, s).value.1..]
  {
  }

  lemma ReplacedExtent(text: string, s: nat, body: string)
    requires Spliced(text, [s], Some(body)).Some?
    ensures s <= |text| && ExtentFrom(text, s).Some?
  {
  }

  /**
   * Deleting a method moves the end of the block around it by exactly the deleted length, or leaves
   * it missing, if and only if the header holds no closing brace or the end was missing before.
   */
  lemma DeletionMovesEnclosingEnd(text: string, o: nat, s: nat, d: int, text': string)
    requires Enclosing(text, o, s, d) && Spliced(text, [s], None) == Some(text')
    requires NoQuoteOrComment(text, s, ExtentFrom(text, s).value.0)
    ensures text' == text[..s] + text[ExtentFrom(text, s).value.1..]
    ensures Shifted(BlockEndOf(text', o), 0) == Shifted(BlockEndOf(text, o), |text'| - |text|) <==>
            '}' !in text[s..ExtentFrom(text, s).value.0] || BlockEndOf(text, o).None?
  {
    hide Scan, Reach, Step, ExtentFrom, Spliced, Closers, NoQuoteOrComment, Enclosing;
    DeletedParts(text, s, text');
    var (opening, end) := ExtentFrom(text, s).value;
    EnclosingIsDeep(text, o, s, d);
    EnclosingElsewhere(text, text', o, s, d);
    ReachScan(text', Config(o, Code, 0), Config(s, Code, d));
    var k := Closers(text[s..opening]);
    if k < d {
      BehindMethod(text, o, s, d, opening, end);
      SameRest(text, end, text', s, d - k);
      if k > 0 && BlockEndOf(text, o).Some? {
        BlockIsPassedOver(text', Config(s, Code, d - k), k);
        var early := Scan(text', Config(s, Code, d - k)).value;
        ReachScan(text', Config(s, Code, d), Config(early, Code, k));
        ScanBounds(text', Config(early, Code, k));
      } else if BlockEndOf(text, o).None? && BlockEndOf(text', o).Some? {
        ShallowerCloses(text', Config(s, Code, d - k), k);
      }
    } else {
      ThroughHeader(text, s, opening, d);
      ReachScan(text, Config(o, Code, 0), Config(s, Code, d));
      ScanBounds(text', Config(s, Code, d));
    }
  }

  lemma EmptyBlock(text: string, k: nat)
    requires k + 1 < |text| && text[k] == '{' && text[k + 1] == '}'
    ensures BlockEndOf(text, k) == Some(k + 2)
  {
    assert Scan(text, Config(k + 1, Code, 1)) == Some(k + 2);
  }

  lemma FirstLine(text: string)
    requires |text| >= 2 && text[0] == '{' && text[1] == '\n'
    ensures Enclosing(text, 0, 2, 1)
  {
    assert Reach(text, Config(1, Code, 1), Config(2, Code, 1));
  }

  /** The pattern has exactly one hit in that text, for the name `f`. */
  lemma BraceHeaderDeclares(text: string)
    requires text == "{\n    int f(}){}\n}"
    ensures Hits(text, "f", 0) == [2]
  {
    hide IndexOf, Hits, Declares;
    var h := Parts(6, 9, 10, 11, 13, 14, 14);
    assert Declaration(text, 2, "f", h);
    NotIndented(text, 0, "f");
    NotIndented(text, 1, "f");
    HitsFirst(text, "f", 0, 2, h);
    NoHitsNearEnd(text, "f", 15);
  }

  lemma {:induction false} NoHitsNearEnd(text: string, name: string, from: nat)
    requires from + 4 > |text|
    ensures Hits(text, name, from) == []
    decreases |text| - from
  {
    hide Declares;
    NotIndented(text, from, name);
    if from < |text| {
      NoHitsNearEnd(text, name, from + 1);
    }
  }

  lemma BraceHeader(text: string)
    requires text == "{\n    int f(}){}\n}"
    ensures Enclosing(text, 0, 2, 1) && ExtentFrom(text, 2) == Some((14, 16))
    ensures NoQuoteOrComment(text, 2, 14) && Closers(text[2..14]) >= 1
    ensures BlockEndOf(text, 0).Some?
  {
    hide Scan, Reach, Step;
    FirstLine(text);
    EmptyBlock(text, 14);
    assert OccursAt(text, "{", 14);
    forall k | 2 <= k < 14 ensures !OccursAt(text, "{", k) {
      assert text[k..k + 1][0] == text[k];
    }
    assert ExtentFrom(text, 2) == Some((14, 16));
    assert text[2..14][10] == '}';
    ThroughHeader(text, 2, 14, 1);
    ReachScan(text, Config(0, Code, 0), Config(2, Code, 1));
  }

  /** A closing brace in the header really breaks the deletion: the block around seems to end in it. */
  lemma HeaderBraceBreaksDeletion(text: string)
    requires text == "{\n    int f(}){}\n}"
    ensures Hits(text, "f", 0) == [2] && Enclosing(text, 0, 2, 1) && Spliced(text, [2], None).Some?
    ensures var text' := Spliced(text, [2], None).value;
            Shifted(BlockEndOf(text', 0), 0) != Shifted(BlockEndOf(text, 0), |text'| - |text|)
  {
    hide Scan, Reach, Step, Enclosing, ExtentFrom, Closers, NoQuoteOrComment, Hits;
    BraceHeaderDeclares(text);
    BraceHeader(text);
    DeletionMovesEnclosingEnd(text, 0, 2, 1, Spliced(text, [2], None).value);
  }

  /** What closes inside `small` closes at the same place when more text follows. */
  lemma {:induction false} ClosesWithin(small: string, big: string, off: nat, c: Config)
    requires Within(small, big, off) && Scan(small, c).Some?
    ensures Scan(big, Later(c, off)) == Some(Scan(small, c).value + off)
    decreases |small| - c.at
  {
    hide Step;
    StepWithin(small, big, off, c);
    if Step(small, c).Go? {
      StepMoves(small, c);
      ClosesWithin(small, big, off, Step(small, c).next);
    }
  }

  lemma StepMoves(text: string, c: Config)
    requires c.at < |text|
    ensures Step(text, c).Go? ==> c.at < Step(text, c).next.at
  {
  }

  /** A block that closes in the header closes there whatever follows the header. */
  lemma ClosesInHeader(text: string, text': string, s: nat, opening: nat, d: nat)
    requires s <= opening < |text| && opening < |text'| && text[..opening + 1] == text'[..opening + 1]
    requires text[opening] == '{' && '{' !in text[s..opening] && NoQuoteOrComment(text, s, opening)
    requires 1 <= d <= Closers(text[s..opening])
    ensures Scan(text, Config(s, Code, d)).Some?
    ensures Scan(text', Config(s, Code, d)) == Scan(text, Config(s, Code, d))
  {
    hide Scan, Closers;
    var small := text[..opening + 1];
    assert text[0..0 + |small|] == small && text'[0..0 + |small|] == small;
    assert small[opening] == '{';
    assert Within(small, text, 0) && Within(small, text', 0);
    HeaderElsewhere(text, small, s, opening);
    assert small[s..opening] == text[s..opening];
    ThroughHeader(small, s, opening, d);
    ClosesWithin(small, text, 0, Config(s, Code, d));
    ClosesWithin(small, text', 0, Config(s, Code, d));
  }

  /**
   * Replacing a method's body by one that rescans to the depth it starts at moves the end of the
   * block around the method by exactly the change in length, or leaves it missing, if and only if
   * the header does not already close that block or the length does not change.
   */
  lemma ReplacementMovesEnclosingEnd(text: string, o: nat, s: nat, d: int, body: string, text': string)
    requires Enclosing(text, o, s, d) && Spliced(text, [s], Some(body)) == Some(text')
    requires NoQuoteOrComment(text, s, ExtentFrom(text, s).value.0)
    requires var k := Closers(text[s..ExtentFrom(text, s).value.0]); k < d ==> Rescans(body, d - k + 1)
    ensures var (opening, end) := ExtentFrom(text, s).value;
            text' == text[..opening + 1] + body + "\n    }" + text[end..]
    ensures Shifted(BlockEndOf(text', o), 0) == Shifted(BlockEndOf(text, o), |text'| - |text|) <==>
            Closers(text[s..ExtentFrom(text, s).value.0]) < d || |text'| == |text|
  {
    hide Scan, Reach, Step, Spliced, ExtentFrom, Closers, NoQuoteOrComment, Enclosing, Rescans;
    ReplacedExtent(text, s, body);
    var (opening, end) := ExtentFrom(text, s).value;
    EnclosingIsDeep(text, o, s, d);
    ReplacedParts(text, s, opening, end, body, text');
    ReplacedWhole(text, opening, end, body, text');
    EnclosingElsewhere(text, text', o, s, d);
    ReachScan(text', Config(o, Code, 0), Config(s, Code, d));
    if Closers(text[s..opening]) < d {
      ReplacedBehind(text, o, s, d, opening, end, body, text');
    } else {
      ReachScan(text, Config(o, Code, 0), Config(s, Code, d));
      ClosesInHeader(text, text', s, opening, d);
    }
  }

  /** The replacement when the scan reaches the opening brace of the method. */
  lemma ReplacedBehind(
    text: string, o: nat, s: nat, d: nat, opening: nat, end: nat, body: string, text': string)
    requires Enclosing(text, o, s, d) && ExtentFrom(text, s) == Some((opening, end))
    requires Spliced(text, [s], Some(body)) == Some(text') && Enclosing(text', o, s, d)
    requires NoQuoteOrComment(text, s, opening) && Closers(text[s..opening]) < d
    requires Rescans(body, d - Closers(text[s..opening]) + 1)
    ensures Shifted(BlockEndOf(text', o), 0) == Shifted(BlockEndOf(text, o), |text'| - |text|)
  {
    hide Scan, Reach, Step, Spliced, ExtentFrom, Closers, NoQuoteOrComment, Enclosing, Rescans;
    var left := d - Closers(text[s..opening]);
    BehindMethod(text, o, s, d, opening, end);
    ReplacedParts(text, s, opening, end, body, text');
    EnclosingIsDeep(text', o, s, d);
    var tail := opening + 1 + |body| + |TAIL|;
    assert text[s..opening] == text[..opening + 1][s..opening] == text'[s..opening];
    HeaderElsewhere(text, text', s, opening);
    ThroughHeader(text', s, opening, d);
    ThroughBody(text', opening + 1, body, left);
    OpeningStep(text', opening, left);
    ReachScan(text', Config(o, Code, 0), Config(s, Code, d));
    ReachScan(text', Config(s, Code, d), Config(opening, Code, left));
    ReachScan(text', Config(opening + 1, Code, left + 1), Config(tail, Code, left));
    SameRest(text, end, text', tail, left);
  }

  /** The same text breaks the replacement by an empty body, which rescans at every depth. */
  lemma HeaderBraceBreaksReplacement(text: string, d: int)
    requires text == "{\n    int f(}){}\n}"
    ensures Hits(text, "f", 0) == [2] && Enclosing(text, 0, 2, 1) && Rescans("", d)
    ensures Spliced(text, [2], Some("")).Some?
    ensures var text' := Spliced(text, [2], Some("")).value;
            Shifted(BlockEndOf(text', 0), 0) != Shifted(BlockEndOf(text, 0), |text'| - |text|)
  {
    hide Scan, Step, Enclosing, ExtentFrom, Closers, NoQuoteOrComment, Hits;
    BraceHeaderDeclares(text);
    BraceHeader(text);
    var text' := Spliced(text, [2], Some("")).value;
    ReplacedParts(text, 2, 14, 16, "", text');
    ReplacementMovesEnclosingEnd(text, 0, 2, 1, "", text');
  }

  lemma ReplacedWhole(text: string, opening: nat, end: nat, body: string, text': string)
    requires opening < end <= |text| && opening + 1 + |body| + |TAIL| <= |text'|
    requires text'[..opening + 1] == text[..opening + 1]
    requires text'[opening + 1..opening + 1 + |body| + |TAIL|] == body + TAIL
    requires text'[opening + 1 + |body| + |TAIL|..] == text[end..]
    ensures text' == text[..opening + 1] + body + "\n    }" + text[end..]
  {
    var tail := opening + 1 + |body| + |TAIL|;
    assert text' == text'[..opening + 1] + text'[opening + 1..tail] + text'[tail..];
  }

  lemma ReplacedParts(text: string, s: nat, opening: nat, end: nat, body: string, text': string)
    requires s <= |text| && ExtentFrom(text, s) == Some((opening, end))
    requires Spliced(text, [s], Some(body)) == Some(text')
    ensures |text'| == opening + 1 + |body| + |TAIL| + |text| - end
    ensures text'[..opening + 1] == text[..opening + 1]
    ensures text'[opening + 1..opening + 1 + |body| + |TAIL|] == body + TAIL
    ensures text'[opening + 1 + |body| + |TAIL|..] == text[end..]
    ensures text'[..s] == text[..s] && text'[opening] == '{'
  {
    assert text[..s] + (text[s..opening + 1] + body + TAIL) + text[end..]
        == text[..opening + 1] + (body + TAIL) + text[end..];
    assert text'[opening] == text'[..opening + 1][opening];
    assert text'[..s] == text'[..opening + 1][..s];
  }

  lemma HeaderElsewhere(text: string, text': string, s: nat, opening: nat)
    requires s <= opening < |text| && opening < |text'| && text[..opening + 1] == text'[..opening + 1]
    requires NoQuoteOrComment(text, s, opening)
    ensures NoQuoteOrComment(text', s, opening)
  {
    forall k | s <= k < opening
      ensures !IsQuote(text'[k]) && !PairAt(text', k, '/', '/') && !PairAt(text', k, '/', '*')
    {
      assert text'[k] == text'[..opening + 1][k] == text[k];
      assert text'[k + 1] == text'[..opening + 1][k + 1] == text[k + 1];
    }
  }

  // ---------------------------------------------------------------- splices in a row

  /** From the start of a replaced method the block ends where its new body was put. */
  lemma ReplacedBlock(text: string, s: nat, body: string, text': string)
    requires s <= |text| && Spliced(text, [s], Some(body)) == Some(text') && Rescans(body, 1)
    ensures ExtentFrom(text, s).Some?
    ensures var opening := ExtentFrom(text, s).value.0;
            ExtentFrom(text', s) == Some((opening, opening + 1 + |body| + |TAIL|))
  {
    hide Scan, Reach, Step, Spliced, Rescans;
    ReplacedExtent(text, s, body);
    var (opening, end) := ExtentFrom(text, s).value;
    ReplacedParts(text, s, opening, end, body, text');
    ThroughBody(text', opening + 1, body, 0);
    OpeningStep(text', opening, 0);
    assert OccursAt(text', "{", opening);
    forall k | s <= k < opening ensures !OccursAt(text', "{", k) {
      assert text'[k] == text'[..opening + 1][k] == text[k] == text[s..opening][k - s];
      assert text'[k..k + 1][0] != '{';
    }
  }

  lemma ReplacedAgain(text: string, s: nat, body: string, text': string, later: Option<string>)
    requires s <= |text| && Spliced(text, [s], Some(body)) == Some(text') && Rescans(body, 1)
    ensures Spliced(text', [s], later) == Spliced(text, [s], later)
  {
    var (opening, end) := ExtentFrom(text, s).value;
    ReplacedBlock(text, s, body, text');
    ReplacedParts(text, s, opening, end, body, text');
    assert text'[s..opening + 1] == text'[..opening + 1][s..] == text[..opening + 1][s..] == text[s..opening + 1];
  }

  /** No match starts before the hit in the changed text: it would end by the hit's brace, where nothing changed. */
  lemma NoEarlierMatch(text: string, text': string, name: string, s: nat, opening: nat, t: nat)
    requires '{' !in name && Hits(text, name, 0) == [s] && t < s <= opening < |text| && opening < |text'|
    requires text[..opening + 1] == text'[..opening + 1] && text[opening] == '{'
    ensures !Declares(text', t, name)
  {
    hide Declaration, Declares, Hits;
    if Declares(text', t, name) {
      var h := PartsOf(text', t, name);
      BraceIsFirst(text', t, name, h);
      assert OccursAt(text', "{", opening) by { assert text'[opening] == text'[..opening + 1][opening] == '{'; }
      assert h.brace <= opening;
      assert text'[..h.brace + 1] == text'[..opening + 1][..h.brace + 1] == text[..h.brace + 1];
      DeclarationLocally(text', text, t, name, h);
      DeclaresBy(text, t, name, h);
      MatchIsHitOrInside(text, name, 0, t);
    }
  }

  /**
   * A replaced method is found again: it is the first hit in the changed text, its block ends where
   * the new body was put, and further hits are those behind its brace.
   */
  lemma ExtentAfterReplacement(text: string, name: string, s: nat, body: string, text': string)
    requires '{' !in name && Hits(text, name, 0) == [s]
    requires Spliced(text, [s], Some(body)) == Some(text') && Rescans(body, 1)
    ensures s <= |text| && ExtentFrom(text, s).Some?
    ensures var opening := ExtentFrom(text, s).value.0;
            && Hits(text', name, 0) == [s] + Hits(text', name, opening + 1)
            && ExtentFrom(text', s) == Some((opening, opening + 1 + |body| + |TAIL|))
  {
    hide Declaration, Declares, Hits, Spliced, Rescans, ExtentFrom;
    ReplacedExtent(text, s, body);
    ReplacedBlock(text, s, body, text');
    var (opening, end) := ExtentFrom(text, s).value;
    ReplacedParts(text, s, opening, end, body, text');
    assert s in Hits(text, name, 0);
    HitIsMatch(text, name, 0, s);
    var h := PartsOf(text, s, name);
    BraceIsFirst(text, s, name, h);
    ExtentOpens(text, s);
    DeclarationLocally(text, text', s, name, h);
    forall t: nat | 0 <= t < s ensures !Declares(text', t, name) {
      NoEarlierMatch(text, text', name, s, opening, t);
    }
    HitsFirst(text', name, 0, s, h);
  }

  lemma ExtentOpens(text: string, s: nat)
    requires ExtentFrom(text, s).Some?
    ensures IndexOf(text, "{", s) == Some(ExtentFrom(text, s).value.0)
  {
  }

  /**
   * A further splice of a replaced method gives what it would have given on the original text if and
   * only if the name is declared nowhere behind the method's brace in the changed text.
   */
  lemma LastSpliceWins(text: string, name: string, s: nat, body: string, text': string, later: Option<string>)
    requires '{' !in name && Hits(text, name, 0) == [s]
    requires Spliced(text, [s], Some(body)) == Some(text') && Rescans(body, 1)
    ensures s <= |text| && ExtentFrom(text, s).Some?
    ensures Spliced(text', Hits(text', name, 0), later) == Spliced(text, Hits(text, name, 0), later) <==>
            Hits(text', name, ExtentFrom(text, s).value.0 + 1) == []
  {
    hide Declaration, Declares, Hits, Rescans;
    ExtentAfterReplacement(text, name, s, body, text');
    if Hits(text', name, ExtentFrom(text, s).value.0 + 1) == [] {
      assert Hits(text', name, 0) == [s];
      ReplacedAgain(text, s, body, text', later);
    } else {
      assert |Hits(text', name, 0)| > 1;
      assert Spliced(text, [s], later).Some?;
    }
  }

  /** The body that declares `f` again can be read back to the depth it starts at. */
  lemma DeclaringBodyRescans(body: string)
    requires body == "\n    int f(){}"
    ensures Rescans(body, 1)
  {
    hide Closers;
    assert Closers(body[0..12]) == 0 by { assert '}' !in body[0..12]; }
    ThroughHeader(body, 0, 12, 1);
    assert Step(body, Config(12, Code, 1)) == Go(Config(13, Code, 2));
    assert Step(body, Config(13, Code, 2)) == Go(Config(14, Code, 1));
    assert Reach(body, Config(13, Code, 2), Config(14, Code, 1));
    assert Reach(body, Config(12, Code, 1), Config(14, Code, 1));
    ReachTransitive(body, Config(0, Code, 1), Config(12, Code, 1), Config(14, Code, 1));
  }

  lemma PlainDeclaration(text: string, s: nat) returns (h: Parts)
    requires LineStart(text, s) && s + 12 <= |text| && text[s..s + 12] == "    int f(){"
    ensures Declaration(text, s, "f", h) && h.brace == s + 11
  {
    h := Parts(s + 4, s + 7, s + 8, s + 9, s + 10, s + 11, s + 11);
    assert forall k | s <= k < s + 12 :: text[k] == text[s..s + 12][k - s];
    assert text[s..s + 4] == "    " && text[s + 8..s + 9] == "f";
  }

  lemma TwiceDeclared(text: string)
    requires |text| >= 27 && text[14] == '\n' && text[15..27] == "    int f(){"
    ensures Hits(text, "f", 14) != []
  {
    hide Declares, Hits;
    var h := PlainDeclaration(text, 15);
    DeclaresBy(text, 15, "f", h);
    MatchIsHitOrInside(text, "f", 14, 15);
  }

  /** A body that declares the name again: no further splice finds one method, and each one raises. */
  lemma DeclaringBodyBreaksResplice(text: string, body: string, later: Option<string>)
    requires text == "{\n    int f(){}\n}" && body == "\n    int f(){}"
    ensures Hits(text, "f", 0) == [2] && Rescans(body, 1) && Spliced(text, [2], Some(body)).Some?
    ensures Spliced(text, [2], later).Some?
    ensures var text' := Spliced(text, [2], Some(body)).value;
            Spliced(text', Hits(text', "f", 0), later) == None
  {
    hide Declares, Hits, Scan, Rescans, ExtentFrom;
    PlainExample(text);
    DeclaringBodyRescans(body);
    var text' := Spliced(text, [2], Some(body)).value;
    ReplacedParts(text, 2, 13, 15, body, text');
    assert text'[14] == text'[14..14 + |body| + |TAIL|][0] == body[0];
    assert text'[15..27] == text'[14..14 + |body| + |TAIL|][1..13] == body[1..13] == "    int f(){";
    TwiceDeclared(text');
    LastSpliceWins(text, "f", 2, body, text', later);
    ExtentAfterReplacement(text, "f", 2, body, text');
  }

  lemma PlainExample(text: string)
    requires text == "{\n    int f(){}\n}"
    ensures Hits(text, "f", 0) == [2] && ExtentFrom(text, 2) == Some((13, 15))
  {
    hide Hits, Declares, Scan;
    assert text[2..14] == "    int f(){";
    var h := PlainDeclaration(text, 2);
    NotIndented(text, 0, "f");
    NotIndented(text, 1, "f");
    HitsFirst(text, "f", 0, 2, h);
    NoHitsNearEnd(text, "f", 14);
    BraceIsFirst(text, 2, "f", h);
    EmptyBlock(text, 13);
  }

  // ---------------------------------------------------------------- extraction and deletion

  /** From `start` on, the first brace is the one at `opening`. */
  predicate OpensAt(text: string, start: nat, opening: nat) {
    start <= opening < |text| && text[opening] == '{' && '{' !in text[start..opening]
  }

  lemma OpensAtIff(text: string, start: nat, opening: nat)
    requires opening < |text| && text[opening] == '{'
    ensures IndexOf(text, "{", start) == Some(opening) <==> OpensAt(text, start, opening)
  {
    assert OccursAt(text, "{", opening);
    if OpensAt(text, start, opening) {
      forall k | start <= k < opening ensures !OccursAt(text, "{", k) {
        assert text[k] == text[start..opening][k - start];
        assert text[k..k + 1][0] == text[k];
      }
    } else if start <= opening {
      var i :| 0 <= i < |text[start..opening]| && text[start..opening][i] == '{';
      assert OccursAt(text, "{", start + i);
    }
  }

  /**
   * Taking `out` from `text` at `s` leaves `left`; `out` and `x` end alike, the longer one starting
   * at the smaller of `s` and `start`; and they are equal exactly when these are.
   */
  ghost predicate EndAlike(text: string, s: nat, start: nat, left: string, x: string) {
    exists out: string ::
      && s <= |left| && start <= |text| && text == left[..s] + out + left[s..]
      && (if s <= start then out == text[s..start] + x else x == text[start..s] + out)
      && (x == out <==> start == s)
  }

  lemma SlicesEndAlike(text: string, s: nat, start: nat, end: nat)
    requires s <= end <= |text| && start <= end
    ensures EndAlike(text, s, start, text[..s] + text[end..], text[start..end])
  {
    var left, out, x := text[..s] + text[end..], text[s..end], text[start..end];
    assert left[..s] == text[..s] && left[s..] == text[end..];
    assert text == left[..s] + out + left[s..];
    if s <= start {
      assert out == text[s..start] + x;
    } else {
      assert x == text[start..s] + out;
    }
  }

  /**
   * `extract_method` and deletion of a declared method work on the same block if and only if the
   * first brace from the signature's first occurrence is the method's.  Then they fail together, and
   * what they take ends alike.
   */
  lemma ExtractionMeetsDeletion(text: string, name: string, signature: string, s: nat, start: nat, opening: nat)
    requires Hits(text, name, 0) == [s] && IndexOf(text, signature, 0) == Some(start)
    requires IndexOf(text, "{", s) == Some(opening)
    ensures Spliced(text, Hits(text, name, 0), None).Some? ==>
              (ExtentFrom(text, start) == ExtentFrom(text, s) <==> OpensAt(text, start, opening))
    ensures OpensAt(text, start, opening) ==>
              (Extracted(text, signature).Some? <==> Spliced(text, Hits(text, name, 0), None).Some?)
    ensures OpensAt(text, start, opening) && Extracted(text, signature).Some? ==>
              EndAlike(text, s, start, Spliced(text, Hits(text, name, 0), None).value, Extracted(text, signature).value)
  {
    hide Hits, Scan, EndAlike, OpensAt;
    assert text[opening] == '{' by { assert text[opening..opening + 1][0] == text[opening]; }
    OpensAtIff(text, start, opening);
    HitIsInText(text, name, s);
    if ExtentFrom(text, s).Some? && OpensAt(text, start, opening) {
      var end := ExtentFrom(text, s).value.1;
      assert Spliced(text, [s], None).value == text[..s] + text[end..];
      SlicesEndAlike(text, s, start, end);
    }
  }

  lemma HitIsInText(text: string, name: string, s: nat)
    requires Hits(text, name, 0) == [s]
    ensures s < |text|
  {
    hide Hits, Declares, Declaration;
    assert s in Hits(text, name, 0);
    HitIsMatch(text, name, 0, s);
    var h := PartsOf(text, s, name);
    MatchIsInside(text, s, name, h);
  }

  /** Without indentation there is no declaration: `extract_method` succeeds and `method` raises. */
  lemma ExtractionNeedsNoDeclaration(text: string, body: Option<string>)
    requires text == "int f(){}"
    ensures Extracted(text, "int f(") == Some(text)
    ensures Spliced(text, Hits(text, "f", 0), body) == None
  {
    hide Hits, Declares, Scan;
    forall t: nat | t < 9 ensures !Declares(text, t, "f") {
      NotIndented(text, t, "f");
    }
    HitsSkip(text, "f", 0, 9);
    NoHitsNearEnd(text, "f", 9);
    assert OccursAt(text, "int f(", 0);
    OpensAtIff(text, 0, 7);
    EmptyBlock(text, 7);
    assert text[0..9] == text;
  }

  /** The signature occurs before the declaration, and `extract_method` takes another block. */
  lemma SignatureElsewhere(text: string)
    requires text == "f({\n    int f(){}\n}"
    ensures Hits(text, "f", 0) == [4] && IndexOf(text, "f(", 0) == Some(0)
    ensures Spliced(text, [4], None).Some? && ExtentFrom(text, 0) != ExtentFrom(text, 4)
  {
    hide Hits, Declares, Scan;
    assert text[4..16] == "    int f(){";
    var h := PlainDeclaration(text, 4);
    forall t: nat | t < 4 ensures !Declares(text, t, "f") {
      NotIndented(text, t, "f");
    }
    HitsFirst(text, "f", 0, 4, h);
    NoHitsNearEnd(text, "f", 16);
    BraceIsFirst(text, 4, "f", h);
    EmptyBlock(text, 15);
    assert OccursAt(text, "f(", 0);
    assert !OpensAt(text, 0, 15) by { assert text[0..15][2] == '{'; }
    ExtractionMeetsDeletion(text, "f", "f(", 4, 0, 15);
  }
}
