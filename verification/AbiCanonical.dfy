/**
 * `abi`: each resource variable is expanded through the definitions into a tree without ids, and the
 * trees are sorted, so that equal interfaces compare equal whatever their ids and line order.
 *
 * Trees are sorted by their text, and the sorted list is returned as text with compact separators.
 */
module AbiCanonical {
  import opened Sequences
  import opened Ordering
  import opened AbiTables
  import opened JsonText

  function Row(tokens: seq<string>): Tree {
    Branch(seq(|tokens|, i requires 0 <= i < |tokens| => Leaf(tokens[i])))
  }

  function Rows(lists: seq<seq<string>>): Tree {
    Branch(seq(|lists|, i requires 0 <= i < |lists| => Row(lists[i])))
  }

  predicate IsId(t: string) {
    t != "" && t[0] == '%'
  }

  // ---------------------------------------------------------------- expansion

  /** The tree of one token; `None` for an id without definition or inside its own definition. */
  function Expand(t: Tables, value: string, seen: set<string>): Option<Tree>
    decreases |t.definitions.Keys - seen|, 0, 0
  {
    if !IsId(value) then Some(Leaf(value))
    else if value in seen || value !in t.definitions then None
    else
      assert t.definitions.Keys - (seen + {value}) < t.definitions.Keys - seen by {
        assert value in t.definitions.Keys - seen;
      }
      SubsetIsSmaller(t.definitions.Keys - (seen + {value}), t.definitions.Keys - seen);
      match ExpandAll(t, t.definitions[value], seen + {value})
      case None => None
      case Some(operands) =>
        Some(Branch([
          Branch(operands),
          Rows(Sort(StringsLe, Get(t.decorations, value))),
          Rows(Sort(StringsLe, Get(t.members, value)))]))
  }

  function ExpandAll(t: Tables, values: seq<string>, seen: set<string>): Option<seq<Tree>>
    decreases |t.definitions.Keys - seen|, 1, |values|
  {
    if values == [] then Some([])
    else
      match (ExpandAll(t, values[..|values| - 1], seen), Expand(t, values[|values| - 1], seen))
      case (Some(trees), Some(tree)) => Some(trees + [tree])
      case _ => None
  }

  lemma SubsetIsSmaller<T>(a: set<T>, b: set<T>)
    requires a < b
    ensures |a| < |b|
  {
    assert b == a + (b - a) && a !! (b - a);
    assert |b| == |a| + |b - a|;
  }

  /** The order of the texts of two trees, with the default separator. */
  function ByText(x: Tree, y: Tree): bool {
    StringLe(Text(", ", x), Text(", ", y))
  }

  /** The trees of the resource variables, sorted. */
  function Records(t: Tables): Option<seq<Tree>> {
    match ExpandAll(t, t.variables, {})
    case None => None
    case Some(trees) => Some(Sort(ByText, trees))
  }

  function AbiOf(lines: seq<Line>): Option<string> {
    if AnyMalformed(lines) || Records(TablesOf(lines)).None? then None
    else Some(Text(",", Branch(Records(TablesOf(lines)).value)))
  }

  method Abi(lines: seq<Line>) returns (r: Option<string>)
    ensures r == AbiOf(lines)
  {
    var tables := Collect(lines);
    if tables.None? { return None; }
    var records := Records(tables.value);
    if records.None? { return None; }
    r := Some(Text(",", Branch(records.value)));
  }

  // ---------------------------------------------------------------- when expansion fails

  /** `p` follows definitions from id to id. */
  predicate Walk(t: Tables, p: seq<string>) {
    && p != [] && (forall i | 0 <= i < |p| :: IsId(p[i]))
    && (forall i | 0 <= i < |p| - 1 :: p[i] in t.definitions && p[i + 1] in t.definitions[p[i]])
  }

  /** `p` ends in an id that has no definition, or that is in `seen` or earlier in `p`. */
  predicate Stuck(t: Tables, p: seq<string>, seen: set<string>) {
    && Walk(t, p)
    && var last := p[|p| - 1];
       last !in t.definitions || last in seen || last in p[..|p| - 1]
  }

  lemma {:induction false} ExpandAllFails(t: Tables, values: seq<string>, seen: set<string>)
    ensures ExpandAll(t, values, seen).None? <==> exists i :: 0 <= i < |values| && Expand(t, values[i], seen).None?
  {
    if values != [] {
      var init := values[..|values| - 1];
      ExpandAllFails(t, init, seen);
      if ExpandAll(t, init, seen).None? {
        var i :| 0 <= i < |init| && Expand(t, init[i], seen).None?;
        assert values[i] == init[i];
      } else if exists i :: 0 <= i < |values| && Expand(t, values[i], seen).None? {
        var i :| 0 <= i < |values| && Expand(t, values[i], seen).None?;
        assert i < |init| ==> init[i] == values[i];
      }
    }
  }

  lemma {:induction false} FailureHasWalk(t: Tables, value: string, seen: set<string>) returns (p: seq<string>)
    requires Expand(t, value, seen).None?
    ensures Stuck(t, p, seen) && p[0] == value
    decreases |t.definitions.Keys - seen|
  {
    if value in seen || value !in t.definitions {
      p := [value];
    } else {
      var operands, seen' := t.definitions[value], seen + {value};
      assert value in t.definitions.Keys - seen && value !in t.definitions.Keys - seen';
      SubsetIsSmaller(t.definitions.Keys - seen', t.definitions.Keys - seen);
      ExpandAllFails(t, operands, seen');
      var i :| 0 <= i < |operands| && Expand(t, operands[i], seen').None?;
      var rest := FailureHasWalk(t, operands[i], seen');
      p := [value] + rest;
      StuckExtends(t, value, rest, seen);
    }
  }

  lemma StuckExtends(t: Tables, value: string, rest: seq<string>, seen: set<string>)
    requires IsId(value) && value in t.definitions && Stuck(t, rest, seen + {value})
    requires rest[0] in t.definitions[value]
    ensures Stuck(t, [value] + rest, seen)
  {
    var p := [value] + rest;
    forall i | 0 <= i < |p| - 1 ensures p[i] in t.definitions && p[i + 1] in t.definitions[p[i]] {
      if i > 0 {
        assert p[i] == rest[i - 1] && p[i + 1] == rest[i - 1 + 1];
      }
    }
    assert p[..|p| - 1] == [value] + rest[..|rest| - 1];
  }

  lemma {:induction false} WalkMakesFailure(t: Tables, p: seq<string>, seen: set<string>)
    requires Stuck(t, p, seen)
    ensures Expand(t, p[0], seen).None?
    decreases |p|
  {
    if |p| > 1 && p[0] !in seen {
      var rest := p[1..];
      assert p[0] in t.definitions && p[0 + 1] in t.definitions[p[0]];
      forall i | 0 <= i < |rest| - 1 ensures rest[i] in t.definitions && rest[i + 1] in t.definitions[rest[i]] {
        assert rest[i] == p[i + 1] && rest[i + 1] == p[i + 1 + 1];
      }
      assert p[..|p| - 1] == [p[0]] + rest[..|rest| - 1];
      WalkMakesFailure(t, rest, seen + {p[0]});
      var operands := t.definitions[p[0]];
      var i :| 0 <= i < |operands| && operands[i] == p[1];
      ExpandAllFails(t, operands, seen + {p[0]});
    }
  }

  /**
   * Expansion always ends, and it fails exactly when the definitions lead from some resource variable
   * to an undefined id or around a cycle.
   */
  lemma RecordsFailExactlyOnBadWalks(t: Tables)
    ensures Records(t).None? <==> exists p :: Stuck(t, p, {}) && p[0] in t.variables
  {
    ExpandAllFails(t, t.variables, {});
    if Records(t).None? {
      var i :| 0 <= i < |t.variables| && Expand(t, t.variables[i], {}).None?;
      var p := FailureHasWalk(t, t.variables[i], {});
    }
    if exists p :: Stuck(t, p, {}) && p[0] in t.variables {
      var p :| Stuck(t, p, {}) && p[0] in t.variables;
      WalkMakesFailure(t, p, {});
      var i :| 0 <= i < |t.variables| && t.variables[i] == p[0];
    }
  }

  // ---------------------------------------------------------------- tables that differ in names and order

  /** `f` gives ids new names, no two the same, and leaves every other token alone. */
  ghost predicate Renaming(f: string -> string) {
    && (forall t {:trigger f(t)} :: if IsId(t) then IsId(f(t)) else f(t) == t)
    && (forall a, b {:trigger f(a), f(b)} :: f(a) == f(b) ==> a == b)
  }

  function RenameAll(f: string -> string, s: seq<string>): (r: seq<string>) {
    seq(|s|, i requires 0 <= i < |s| => f(s[i]))
  }

  ghost function Image(f: string -> string, s: set<string>): set<string> {
    set x | x in s :: f(x)
  }

  /** Under `f`, the tables agree on what defines an id and, up to order, on how it is decorated. */
  ghost predicate Similar(f: string -> string, t: Tables, u: Tables) {
    && (forall id :: id in t.definitions <==> f(id) in u.definitions)
    && (forall id :: id in t.definitions ==> u.definitions[f(id)] == RenameAll(f, t.definitions[id]))
    && (forall id :: Sort(StringsLe, Get(u.decorations, f(id))) == Sort(StringsLe, Get(t.decorations, id)))
    && (forall id :: Sort(StringsLe, Get(u.members, f(id))) == Sort(StringsLe, Get(t.members, id)))
  }

  lemma SimilarAt(f: string -> string, t: Tables, u: Tables, id: string)
    requires Similar(f, t, u)
    ensures id in t.definitions <==> f(id) in u.definitions
    ensures id in t.definitions ==> u.definitions[f(id)] == RenameAll(f, t.definitions[id])
    ensures Sort(StringsLe, Get(u.decorations, f(id))) == Sort(StringsLe, Get(t.decorations, id))
    ensures Sort(StringsLe, Get(u.members, f(id))) == Sort(StringsLe, Get(t.members, id))
  {
  }

  lemma ImageOf(f: string -> string, seen: set<string>, x: string)
    requires Renaming(f)
    ensures f(x) in Image(f, seen) <==> x in seen
    ensures Image(f, seen + {x}) == Image(f, seen) + {f(x)}
    ensures IsId(f(x)) <==> IsId(x)
    ensures !IsId(x) ==> f(x) == x
  {
  }

  lemma {:induction false} ExpandSimilar(f: string -> string, t: Tables, u: Tables, value: string, seen: set<string>)
    requires Renaming(f) && Similar(f, t, u)
    ensures Expand(u, f(value), Image(f, seen)) == Expand(t, value, seen)
    decreases |t.definitions.Keys - seen|, 0, 0
  {
    hide Renaming, Similar, Image, IsId, Sort, Get, RenameAll, ExpandAll;
    ImageOf(f, seen, value);
    SimilarAt(f, t, u, value);
    if IsId(value) && value !in seen && value in t.definitions {
      assert value in t.definitions.Keys - seen && value !in t.definitions.Keys - (seen + {value});
      SubsetIsSmaller(t.definitions.Keys - (seen + {value}), t.definitions.Keys - seen);
      ExpandAllSimilar(f, t, u, t.definitions[value], seen + {value});
    }
  }

  lemma {:induction false} ExpandAllSimilar(
    f: string -> string, t: Tables, u: Tables, values: seq<string>, seen: set<string>)
    requires Renaming(f) && Similar(f, t, u)
    ensures ExpandAll(u, RenameAll(f, values), Image(f, seen)) == ExpandAll(t, values, seen)
    decreases |t.definitions.Keys - seen|, 1, |values|
  {
    hide Renaming, Similar, Image, IsId, Expand;
    if values != [] {
      var init := values[..|values| - 1];
      ExpandAllSimilar(f, t, u, init, seen);
      ExpandSimilar(f, t, u, values[|values| - 1], seen);
      assert RenameAll(f, values)[..|values| - 1] == RenameAll(f, init);
    }
  }

  // ---------------------------------------------------------------- renaming ids

  function RenameLines(f: string -> string, lines: seq<Line>): seq<Line> {
    seq(|lines|, i requires 0 <= i < |lines| => RenameAll(f, lines[i]))
  }

  /** No decoration of the lines has an id among its operands. */
  predicate LiteralDecorations(lines: seq<Line>) {
    forall i | 0 <= i < |lines| :: LiteralEntry(Decoration(lines[i])) && LiteralEntry(Member(lines[i]))
  }

  predicate LiteralEntry(e: Option<Entry>) {
    e.Some? ==> forall k | 0 <= k < |e.value.tokens| :: !IsId(e.value.tokens[k])
  }

  function RenameEntry(f: string -> string, e: Option<Entry>): Option<Entry> {
    if e.None? then None else Some(Entry(f(e.value.id), RenameAll(f, e.value.tokens)))
  }

  /** Renaming does not change which literals stand where. */
  lemma RenamedToken(f: string -> string, line: Line, k: nat)
    requires Renaming(f) && k < |line|
    ensures IsId(RenameAll(f, line)[k]) <==> IsId(line[k])
    ensures !IsId(line[k]) ==> RenameAll(f, line)[k] == line[k]
  {
  }

  lemma RenamedLine(f: string -> string, line: Line)
    requires Renaming(f)
    ensures var line' := RenameAll(f, line);
            && Decoration(line') == RenameEntry(f, Decoration(line))
            && Member(line') == RenameEntry(f, Member(line))
            && Definition(line') == RenameEntry(f, Definition(line))
            && Variable(line') == RenameAll(f, Variable(line))
            && (Malformed(line') <==> Malformed(line))
  {
    hide Renaming;
    var line' := RenameAll(f, line);
    forall k: nat | k < |line| ensures IsId(line'[k]) <==> IsId(line[k]) {
      RenamedToken(f, line, k);
    }
    forall k: nat | k < |line| && !IsId(line[k]) ensures line'[k] == line[k] {
      RenamedToken(f, line, k);
    }
    if |line| >= 2 {
      assert line'[2..] == RenameAll(f, line[2..]);
    }
  }

  lemma RenameLinesStep(f: string -> string, lines: seq<Line>, line: Line)
    ensures RenameLines(f, lines + [line]) == RenameLines(f, lines) + [RenameAll(f, line)]
  {
  }

  lemma EntriesOfNone(f: string -> string, kind: Line -> Option<Entry>, id: string)
    ensures RenameLines(f, []) == [] && Entries(kind, [], id) == []
  {
  }

  lemma {:induction false} EntriesRenamed(
    f: string -> string, kind: Line -> Option<Entry>, lines: seq<Line>, id: string)
    requires Renaming(f)
    requires forall i | 0 <= i < |lines| :: kind(RenameAll(f, lines[i])) == RenameEntry(f, kind(lines[i]))
    ensures Entries(kind, RenameLines(f, lines), f(id)) == RenameLines(f, Entries(kind, lines, id))
  {
    hide RenameAll, RenameLines, Entries;
    EntriesOfNone(f, kind, id);
    EntriesOfNone(f, kind, f(id));
    if lines != [] {
      var init, line := lines[..|lines| - 1], lines[|lines| - 1];
      EntriesRenamed(f, kind, init, id);
      assert lines == init + [line];
      RenameLinesStep(f, init, line);
      EntriesStep(kind, init, line, id);
      EntriesStep(kind, RenameLines(f, init), RenameAll(f, line), f(id));
      assert kind(RenameAll(f, line)) == RenameEntry(f, kind(lines[|lines| - 1]));
      if kind(line).Some? && kind(line).value.id == id {
        RenameLinesStep(f, Entries(kind, init, id), kind(line).value.tokens);
      } else {
        assert Entries(kind, lines, id) == Entries(kind, init, id);
        assert kind(line).Some? ==> f(kind(line).value.id) != f(id);
      }
    }
  }

  /** Without ids among their tokens, the entries of an id are not touched by renaming. */
  lemma {:induction false} LiteralEntriesStay(
    f: string -> string, kind: Line -> Option<Entry>, lines: seq<Line>, id: string)
    requires Renaming(f) && forall i | 0 <= i < |lines| :: LiteralEntry(kind(lines[i]))
    ensures RenameLines(f, Entries(kind, lines, id)) == Entries(kind, lines, id)
  {
    hide RenameLines, RenameAll, Entries;
    EntriesOfNone(f, kind, id);
    if lines != [] {
      var init, line := lines[..|lines| - 1], lines[|lines| - 1];
      LiteralEntriesStay(f, kind, init, id);
      assert lines == init + [line];
      EntriesStep(kind, init, line, id);
      if kind(line).Some? && kind(line).value.id == id {
        RenameLinesStep(f, Entries(kind, init, id), kind(line).value.tokens);
        LiteralTokensStay(f, kind(line).value.tokens);
      } else {
        assert Entries(kind, lines, id) == Entries(kind, init, id);
      }
    }
  }

  lemma LiteralTokensStay(f: string -> string, s: seq<string>)
    requires Renaming(f) && forall k | 0 <= k < |s| :: !IsId(s[k])
    ensures RenameAll(f, s) == s
  {
    forall k | 0 <= k < |s| ensures f(s[k]) == s[k] {}
  }

  lemma RenameAllConcat(f: string -> string, a: seq<string>, b: seq<string>)
    ensures RenameAll(f, a + b) == RenameAll(f, a) + RenameAll(f, b)
  {
  }

  lemma NoVariables(f: string -> string)
    ensures Gather(Variable, RenameLines(f, [])) == RenameAll(f, Gather(Variable, []))
  {
  }

  lemma {:induction false} VariablesRenamed(f: string -> string, lines: seq<Line>)
    requires Renaming(f)
    ensures Gather(Variable, RenameLines(f, lines)) == RenameAll(f, Gather(Variable, lines))
  {
    hide Renaming, RenameLines, RenameAll, Gather, Variable;
    NoVariables(f);
    if lines != [] {
      var init, line := lines[..|lines| - 1], lines[|lines| - 1];
      VariablesRenamed(f, init);
      assert lines == init + [line];
      RenameLinesStep(f, init, line);
      GatherOne(Variable, RenameLines(f, init), RenameAll(f, line));
      GatherOne(Variable, init, line);
      RenamedLine(f, line);
      RenameAllConcat(f, Gather(Variable, init), Variable(line));
    }
  }

  lemma DefinitionAt(lines: seq<Line>, id: string)
    ensures id in TablesOf(lines).definitions <==> Entries(Definition, lines, id) != []
    ensures id in TablesOf(lines).definitions ==>
              TablesOf(lines).definitions[id] == Last(Entries(Definition, lines, id))
  {
    IdsHaveEntries(Definition, lines, id);
  }

  /** What renamed lines say about one id. */
  lemma RenamedTablesAt(f: string -> string, lines: seq<Line>, id: string)
    requires Renaming(f) && LiteralDecorations(lines)
    ensures var (t, u) := (TablesOf(lines), TablesOf(RenameLines(f, lines)));
            && (id in t.definitions <==> f(id) in u.definitions)
            && (id in t.definitions ==> u.definitions[f(id)] == RenameAll(f, t.definitions[id]))
            && Get(u.decorations, f(id)) == Get(t.decorations, id)
            && Get(u.members, f(id)) == Get(t.members, id)
  {
    hide Renaming, TablesOf, RenameLines, RenameAll, Entries, Get;
    var lines' := RenameLines(f, lines);
    forall i | 0 <= i < |lines|
      ensures Definition(RenameAll(f, lines[i])) == RenameEntry(f, Definition(lines[i]))
      ensures Decoration(RenameAll(f, lines[i])) == RenameEntry(f, Decoration(lines[i]))
      ensures Member(RenameAll(f, lines[i])) == RenameEntry(f, Member(lines[i]))
    {
      RenamedLine(f, lines[i]);
    }
    EntriesRenamed(f, Definition, lines, id);
    LastRenamed(f, Entries(Definition, lines, id));
    DefinitionAt(lines, id);
    DefinitionAt(lines', f(id));
    EntriesRenamed(f, Decoration, lines, id);
    LiteralEntriesStay(f, Decoration, lines, id);
    EntriesRenamed(f, Member, lines, id);
    LiteralEntriesStay(f, Member, lines, id);
    DecorationsAt(lines, id);
    DecorationsAt(lines', f(id));
  }

  lemma RenamedTables(f: string -> string, lines: seq<Line>)
    requires Renaming(f) && LiteralDecorations(lines)
    ensures Similar(f, TablesOf(lines), TablesOf(RenameLines(f, lines)))
  {
    hide Renaming, LiteralDecorations, TablesOf, RenameLines, RenameAll, Sort, Get;
    var t, u := TablesOf(lines), TablesOf(RenameLines(f, lines));
    forall id
      ensures id in t.definitions <==> f(id) in u.definitions
      ensures id in t.definitions ==> u.definitions[f(id)] == RenameAll(f, t.definitions[id])
      ensures Get(u.decorations, f(id)) == Get(t.decorations, id)
      ensures Get(u.members, f(id)) == Get(t.members, id)
    {
      RenamedTablesAt(f, lines, id);
    }
  }

  lemma DecorationsAt(lines: seq<Line>, id: string)
    ensures Get(TablesOf(lines).decorations, id) == Entries(Decoration, lines, id)
    ensures Get(TablesOf(lines).members, id) == Entries(Member, lines, id)
  {
    GetGrouped(Decoration, lines, id);
    GetGrouped(Member, lines, id);
  }

  lemma LastRenamed(f: string -> string, s: seq<seq<string>>)
    ensures RenameLines(f, s) == [] <==> s == []
    ensures s != [] ==> Last(RenameLines(f, s)) == RenameAll(f, Last(s))
  {
  }

  /** Renaming ids changes neither the records nor whether there are any. */
  lemma RenamingKeepsAbi(f: string -> string, lines: seq<Line>)
    requires Renaming(f) && LiteralDecorations(lines)
    ensures AbiOf(RenameLines(f, lines)) == AbiOf(lines)
  {
    hide Renaming, Similar, Expand, ExpandAll;
    var lines' := RenameLines(f, lines);
    forall i | 0 <= i < |lines| ensures Malformed(lines'[i]) <==> Malformed(lines[i]) {
      RenamedLine(f, lines[i]);
    }
    RenamedTables(f, lines);
    VariablesRenamed(f, lines);
    ExpandAllSimilar(f, TablesOf(lines), TablesOf(lines'), TablesOf(lines).variables, {});
    assert Image(f, {}) == {};
  }

  // ---------------------------------------------------------------- reordering lines

  /** Each id is defined by at most one line. */
  ghost predicate DefinedOnce(lines: seq<Line>) {
    forall id :: |Entries(Definition, lines, id)| <= 1
  }

  function Same(x: string): string {
    x
  }

  lemma RenameSame(s: seq<string>)
    ensures RenameAll(Same, s) == s
  {
    assert forall i | 0 <= i < |s| :: RenameAll(Same, s)[i] == Same(s[i]) == s[i];
  }

  lemma PermutedTables(a: seq<Line>, b: seq<Line>)
    requires multiset(a) == multiset(b) && DefinedOnce(a)
    ensures Similar(Same, TablesOf(a), TablesOf(b))
  {
    hide TablesOf, RenameAll, Sort, Get, Grouped, Gather;
    var t, u := TablesOf(a), TablesOf(b);
    forall id
      ensures id in t.definitions <==> Same(id) in u.definitions
      ensures id in t.definitions ==> u.definitions[Same(id)] == RenameAll(Same, t.definitions[id])
      ensures Sort(StringsLe, Get(u.decorations, Same(id))) == Sort(StringsLe, Get(t.decorations, id))
      ensures Sort(StringsLe, Get(u.members, Same(id))) == Sort(StringsLe, Get(t.members, id))
    {
      GatherPermuted(EntryFor(Definition, id), a, b);
      AtMostOne(Entries(Definition, a, id), Entries(Definition, b, id));
      DefinitionAt(a, id);
      DefinitionAt(b, id);
      RenameSame(Last(Entries(Definition, a, id)));
      DecorationsAt(a, id);
      DecorationsAt(b, id);
      GatherPermuted(EntryFor(Decoration, id), a, b);
      GatherPermuted(EntryFor(Member, id), a, b);
      StringsLeIsTotalOrder();
      SortIsCanonical(StringsLe, Entries(Decoration, a, id), Entries(Decoration, b, id));
      SortIsCanonical(StringsLe, Entries(Member, a, id), Entries(Member, b, id));
    }
  }

  lemma AtMostOne<T>(a: seq<T>, b: seq<T>)
    requires multiset(a) == multiset(b) && |a| <= 1
    ensures a == b
  {
    assert |b| == |multiset(b)| == |multiset(a)| == |a|;
    if |a| == 1 {
      assert b[0] in multiset(b);
      assert b[0] in a;
    }
  }

  function TreeOf(t: Tables): string -> seq<Tree> {
    v => match Expand(t, v, {}) case None => [] case Some(tree) => [tree]
  }

  lemma {:induction false} ExpandAllGathers(t: Tables, values: seq<string>)
    requires ExpandAll(t, values, {}).Some?
    ensures ExpandAll(t, values, {}).value == Gather(TreeOf(t), values)
  {
    if values != [] {
      ExpandAllGathers(t, values[..|values| - 1]);
    }
  }

  lemma ByTextIsTotalOrder()
    ensures TotalOrder(ByText)
  {
    hide Text, StringLe;
    StringLeIsTotalOrder();
    forall x, y | ByText(x, y) && ByText(y, x) ensures x == y {
      TextIsOneToOne(", ", x, y);
    }
  }

  /** The order in which values are expanded does not show in the sorted records. */
  lemma ExpandPermuted(t: Tables, a: seq<string>, b: seq<string>)
    requires multiset(a) == multiset(b)
    ensures ExpandAll(t, a, {}).None? <==> ExpandAll(t, b, {}).None?
    ensures ExpandAll(t, a, {}).Some? ==>
              Sort(ByText, ExpandAll(t, a, {}).value) == Sort(ByText, ExpandAll(t, b, {}).value)
  {
    hide Expand, Sort, Gather;
    SameMembers(a, b);
    SameMembers(b, a);
    ExpandAllFails(t, a, {});
    ExpandAllFails(t, b, {});
    if ExpandAll(t, a, {}).Some? {
      ExpandAllGathers(t, a);
      ExpandAllGathers(t, b);
      GatherPermuted(TreeOf(t), a, b);
      ByTextIsTotalOrder();
      SortIsCanonical(ByText, ExpandAll(t, a, {}).value, ExpandAll(t, b, {}).value);
    }
  }

  lemma SameMembers<T>(a: seq<T>, b: seq<T>)
    requires multiset(a) == multiset(b)
    ensures forall i | 0 <= i < |a| :: a[i] in b
    ensures forall i | 0 <= i < |a| :: exists j :: 0 <= j < |b| && b[j] == a[i]
  {
    forall i | 0 <= i < |a| ensures a[i] in b {
      assert a[i] in multiset(a);
      assert a[i] in multiset(b);
    }
  }

  /** Reordering lines changes neither the records nor whether there are any. */
  lemma ReorderingKeepsAbi(a: seq<Line>, b: seq<Line>)
    requires multiset(a) == multiset(b) && DefinedOnce(a)
    ensures AbiOf(a) == AbiOf(b)
  {
    hide Similar, Expand, ExpandAll, Sort, Gather, DefinedOnce;
    SameMembers(a, b);
    SameMembers(b, a);
    assert AnyMalformed(a) <==> AnyMalformed(b);
    var t, u := TablesOf(a), TablesOf(b);
    GatherPermuted(Variable, a, b);
    PermutedTables(a, b);
    ExpandAllSimilar(Same, t, u, u.variables, {});
    RenameSame(u.variables);
    assert Image(Same, {}) == {};
    ExpandPermuted(t, t.variables, u.variables);
  }

  /** Equal interfaces have equal records, whatever their ids are called and in whatever order they are listed. */
  lemma AbiIsCanonical(f: string -> string, lines: seq<Line>, other: seq<Line>)
    requires Renaming(f)
    requires LiteralDecorations(lines) && DefinedOnce(lines)
    requires multiset(other) == multiset(RenameLines(f, lines))
    ensures AbiOf(other) == AbiOf(lines)
  {
    hide Renaming, AbiOf, RenameLines;
    RenamingKeepsAbi(f, lines);
    RenamedDefinedOnce(f, lines);
    ReorderingKeepsAbi(RenameLines(f, lines), other);
  }

  /** Two interfaces have the same text exactly when their variables have the same trees, each as often. */
  lemma AbiComparesTrees(a: seq<Line>, b: seq<Line>)
    requires AbiOf(a).Some? && AbiOf(b).Some?
    ensures AbiOf(a) == AbiOf(b) <==>
            multiset(ExpandAll(TablesOf(a), TablesOf(a).variables, {}).value) ==
            multiset(ExpandAll(TablesOf(b), TablesOf(b).variables, {}).value)
  {
    hide Text, Sort, TotalOrder, ByText, ExpandAll, TablesOf;
    var x := ExpandAll(TablesOf(a), TablesOf(a).variables, {}).value;
    var y := ExpandAll(TablesOf(b), TablesOf(b).variables, {}).value;
    ByTextIsTotalOrder();
    SortIsCanonical(ByText, x, y);
    if AbiOf(a) == AbiOf(b) {
      TextIsOneToOne(",", Branch(Sort(ByText, x)), Branch(Sort(ByText, y)));
    }
  }

  lemma RenamedDefinedOnce(f: string -> string, lines: seq<Line>)
    requires Renaming(f) && DefinedOnce(lines)
    ensures DefinedOnce(RenameLines(f, lines))
  {
    hide Renaming, RenameAll, RenameLines, Entries, Definition;
    forall i | 0 <= i < |lines|
      ensures Definition(RenameAll(f, lines[i])) == RenameEntry(f, Definition(lines[i]))
    {
      RenamedLine(f, lines[i]);
    }
    forall id ensures |Entries(Definition, RenameLines(f, lines), id)| <= 1 {
      if Entries(Definition, RenameLines(f, lines), id) != [] {
        var source := DefinedNameHasSource(f, lines, id);
        EntriesRenamed(f, Definition, lines, source);
        RenameLinesLength(f, Entries(Definition, lines, source));
      }
    }
  }

  lemma RenameLinesLength(f: string -> string, lines: seq<Line>)
    ensures |RenameLines(f, lines)| == |lines|
  {
  }

  lemma {:induction false} DefinedNameHasSource(f: string -> string, lines: seq<Line>, id: string)
    returns (source: string)
    requires Renaming(f) && Entries(Definition, RenameLines(f, lines), id) != []
    ensures f(source) == id
  {
    hide Renaming, RenameAll, RenameLines, Entries, Definition;
    EntriesOfNone(f, Definition, id);
    if lines != [] {
      var init, line := lines[..|lines| - 1], lines[|lines| - 1];
      assert lines == init + [line];
      RenameLinesStep(f, init, line);
      EntriesStep(Definition, RenameLines(f, init), RenameAll(f, line), id);
      RenamedLine(f, line);
      if Entries(Definition, RenameLines(f, init), id) != [] {
        source := DefinedNameHasSource(f, init, id);
      } else {
        source := Definition(line).value.id;
      }
    }
  }
}
