/**
 * What two equal ABI texts say about the disassemblies they came from, told without trees: the
 * resource variables can be matched so that from matched variables every way through the operands
 * leads to the same literal, or to ids that are decorated alike.
 */
module AbiMeaning {
  import opened Sequences
  import opened Ordering
  import opened AbiTables
  import opened JsonText
  import opened AbiCanonical
  import opened JsonParse

  // ---------------------------------------------------------------- ways through the operands

  predicate IsName(token: string) {
    |token| >= 1 && token[0] == '%'
  }

  /** The operands of the definition of `id` that counts, the last one. */
  function OperandsOf(lines: seq<Line>, id: string): Option<seq<string>> {
    var all := Entries(Definition, lines, id);
    if all == [] then None else Some(all[|all| - 1])
  }

  /** The token reached from `token` by choosing an operand position at each id; None off the end. */
  function Follow(lines: seq<Line>, token: string, path: seq<nat>): Option<string>
    decreases |path|
  {
    if path == [] then Some(token)
    else if IsName(token) && OperandsOf(lines, token).Some? && path[0] < |OperandsOf(lines, token).value| then
      Follow(lines, OperandsOf(lines, token).value[path[0]], path[1..])
    else None
  }

  /** The same literal, or two ids with the same decorations and member decorations, each as often. */
  predicate SameSpot(a: seq<Line>, b: seq<Line>, x: string, y: string) {
    if IsName(x) && IsName(y) then
      && multiset(Entries(Decoration, a, x)) == multiset(Entries(Decoration, b, y))
      && multiset(Entries(Member, a, x)) == multiset(Entries(Member, b, y))
    else x == y
  }

  predicate SameEnd(a: seq<Line>, b: seq<Line>, x: Option<string>, y: Option<string>) {
    if x.Some? && y.Some? then SameSpot(a, b, x.value, y.value) else x == y
  }

  /** Every way from `x` in `a` and from `y` in `b` ends alike. */
  ghost predicate Alike(a: seq<Line>, x: string, b: seq<Line>, y: string) {
    forall path :: SameEnd(a, b, Follow(a, x, path), Follow(b, y, path))
  }

  /** Alike ids are decorated alike, have equally many operands, and pairwise alike ones. */
  lemma AlikeIds(a: seq<Line>, x: string, b: seq<Line>, y: string, ops: seq<string>, ops': seq<string>)
    requires IsName(x) && IsName(y) && OperandsOf(a, x) == Some(ops) && OperandsOf(b, y) == Some(ops')
    ensures Alike(a, x, b, y) <==>
            SameSpot(a, b, x, y) && |ops| == |ops'| && forall k | 0 <= k < |ops| :: Alike(a, ops[k], b, ops'[k])
  {
    hide OperandsOf, SameSpot, IsName;
    if Alike(a, x, b, y) {
      assert SameEnd(a, b, Follow(a, x, []), Follow(b, y, []));
      assert SameEnd(a, b, Follow(a, x, [|ops|]), Follow(b, y, [|ops|]));
      assert SameEnd(a, b, Follow(a, x, [|ops'|]), Follow(b, y, [|ops'|]));
      FollowOne(a, x, ops, |ops|);
      FollowOne(b, y, ops', |ops|);
      FollowOne(a, x, ops, |ops'|);
      FollowOne(b, y, ops', |ops'|);
      forall k | 0 <= k < |ops| ensures Alike(a, ops[k], b, ops'[k]) {
        forall path ensures SameEnd(a, b, Follow(a, ops[k], path), Follow(b, ops'[k], path)) {
          assert SameEnd(a, b, Follow(a, x, [k] + path), Follow(b, y, [k] + path));
          assert ([k] + path)[1..] == path;
        }
      }
    } else {
      var path: seq<nat> :| !SameEnd(a, b, Follow(a, x, path), Follow(b, y, path));
      if path != [] && path[0] < |ops| == |ops'| {
        assert !SameEnd(a, b, Follow(a, ops[path[0]], path[1..]), Follow(b, ops'[path[0]], path[1..]));
      }
    }
  }

  lemma FollowOne(lines: seq<Line>, x: string, ops: seq<string>, k: nat)
    requires IsName(x) && OperandsOf(lines, x) == Some(ops)
    ensures Follow(lines, x, [k]) == if k < |ops| then Some(ops[k]) else None
  {
    assert [k][1..] == [];
  }

  lemma AlikeLiterals(a: seq<Line>, x: string, b: seq<Line>, y: string)
    requires !IsName(x) || !IsName(y)
    ensures Alike(a, x, b, y) <==> x == y
  {
    if Alike(a, x, b, y) {
      assert SameEnd(a, b, Follow(a, x, []), Follow(b, y, []));
    }
    if x == y {
      forall path ensures SameEnd(a, b, Follow(a, x, path), Follow(b, y, path)) {}
    }
  }

  // ---------------------------------------------------------------- trees say exactly that

  lemma {:induction false} ExpandAllAt(t: Tables, values: seq<string>, seen: set<string>)
    requires ExpandAll(t, values, seen).Some?
    ensures |ExpandAll(t, values, seen).value| == |values|
    ensures forall i | 0 <= i < |values| ::
              Expand(t, values[i], seen) == Some(ExpandAll(t, values, seen).value[i])
  {
    hide Expand;
    if values != [] {
      ExpandAllAt(t, values[..|values| - 1], seen);
    }
  }

  /** What a successful expansion of an id consists of. */
  lemma ExpandedId(lines: seq<Line>, id: string, seen: set<string>) returns (ops: seq<string>, trees: seq<Tree>)
    requires IsName(id) && Expand(TablesOf(lines), id, seen).Some?
    ensures OperandsOf(lines, id) == Some(ops) && |trees| == |ops|
    ensures id !in seen && id in TablesOf(lines).definitions
    ensures forall i | 0 <= i < |ops| :: Expand(TablesOf(lines), ops[i], seen + {id}) == Some(trees[i])
    ensures Expand(TablesOf(lines), id, seen).value == Branch([
              Branch(trees),
              Rows(Sort(StringsLe, Entries(Decoration, lines, id))),
              Rows(Sort(StringsLe, Entries(Member, lines, id)))])
  {
    hide TablesOf, Entries, Sort, Rows, ExpandAll;
    var t := TablesOf(lines);
    DefinitionAt(lines, id);
    DecorationsAt(lines, id);
    ops := t.definitions[id];
    trees := ExpandAll(t, ops, seen + {id}).value;
    ExpandAllAt(t, ops, seen + {id});
  }

  lemma RowIsOneToOne(x: seq<string>, y: seq<string>)
    requires Row(x) == Row(y)
    ensures x == y
  {
    assert |x| == |Row(x).items| == |Row(y).items| == |y|;
    forall i | 0 <= i < |x| ensures x[i] == y[i] {
      assert Row(x).items[i] == Leaf(x[i]) && Row(y).items[i] == Leaf(y[i]);
    }
  }

  lemma RowsAreOneToOne(x: seq<seq<string>>, y: seq<seq<string>>)
    requires Rows(x) == Rows(y)
    ensures x == y
  {
    hide Row;
    assert |x| == |Rows(x).items| == |Rows(y).items| == |y|;
    forall i | 0 <= i < |x| ensures x[i] == y[i] {
      assert Rows(x).items[i] == Row(x[i]) && Rows(y).items[i] == Row(y[i]);
      RowIsOneToOne(x[i], y[i]);
    }
  }

  lemma SortedRowsIff(x: seq<seq<string>>, y: seq<seq<string>>)
    ensures Rows(Sort(StringsLe, x)) == Rows(Sort(StringsLe, y)) <==> multiset(x) == multiset(y)
  {
    hide Rows, Sort, TotalOrder;
    StringsLeIsTotalOrder();
    SortIsCanonical(StringsLe, x, y);
    if Rows(Sort(StringsLe, x)) == Rows(Sort(StringsLe, y)) {
      RowsAreOneToOne(Sort(StringsLe, x), Sort(StringsLe, y));
    }
  }

  /** Two tokens expand to the same tree if and only if they are alike. */
  lemma {:induction false} SameTreeIffAlike(
    a: seq<Line>, x: string, seenA: set<string>, b: seq<Line>, y: string, seenB: set<string>)
    requires Expand(TablesOf(a), x, seenA).Some? && Expand(TablesOf(b), y, seenB).Some?
    ensures Expand(TablesOf(a), x, seenA) == Expand(TablesOf(b), y, seenB) <==> Alike(a, x, b, y)
    decreases |TablesOf(a).definitions.Keys - seenA|
  {
    if IsName(x) && IsName(y) {
      var ops, trees := ExpandedId(a, x, seenA);
      var ops', trees' := ExpandedId(b, y, seenB);
      var keys := TablesOf(a).definitions.Keys;
      assert x in keys - seenA && x !in keys - (seenA + {x});
      SubsetIsSmaller(keys - (seenA + {x}), keys - seenA);
      forall k | 0 <= k < |ops| && k < |ops'| ensures trees[k] == trees'[k] <==> Alike(a, ops[k], b, ops'[k]) {
        SameTreeIffAlike(a, ops[k], seenA + {x}, b, ops'[k], seenB + {y});
      }
      SortedRowsIff(Entries(Decoration, a, x), Entries(Decoration, b, y));
      SortedRowsIff(Entries(Member, a, x), Entries(Member, b, y));
      AlikeIds(a, x, b, y, ops, ops');
      hide Expand, TablesOf, Alike, Entries, Rows, Sort;
      SameBranches(trees, trees');
    } else {
      AlikeLiterals(a, x, b, y);
    }
  }

  lemma SameBranches(x: seq<Tree>, y: seq<Tree>)
    ensures x == y <==> |x| == |y| && forall k | 0 <= k < |x| && k < |y| :: x[k] == y[k]
  {
  }

  // ---------------------------------------------------------------- matching

  /** `m` assigns to each place of `n` a different place of `n`. */
  predicate Permutation(m: seq<nat>, n: nat) {
    |m| == n && Distinct(m) && forall i | 0 <= i < n :: m[i] < n
  }

  lemma {:induction false} Arranged<T>(x: seq<T>, y: seq<T>) returns (m: seq<nat>)
    requires multiset(x) == multiset(y)
    ensures Permutation(m, |x|) && |y| == |x| && forall i | 0 <= i < |x| :: y[m[i]] == x[i]
    decreases |x|
  {
    assert |x| == |multiset(x)| == |multiset(y)| == |y|;
    if x == [] {
      m := [];
    } else {
      var init, k := LastIn(x, y);
      var m' := Arranged(init, y[..k] + y[k + 1..]);
      m := Inserted(x, y, k, m');
    }
  }

  /** Where the last element of `x` stands in `y`; the rest of both hold the same elements. */
  lemma LastIn<T>(x: seq<T>, y: seq<T>) returns (init: seq<T>, k: nat)
    requires multiset(x) == multiset(y) && x != []
    ensures init == x[..|x| - 1] && k < |y| && y[k] == x[|x| - 1]
    ensures multiset(init) == multiset(y[..k] + y[k + 1..])
  {
    init := x[..|x| - 1];
    var last := x[|x| - 1];
    assert x == init + [last] && last in multiset(y);
    k :| 0 <= k < |y| && y[k] == last;
    WithoutOne(y, k);
    assert multiset(init) == multiset(x) - multiset{last};
  }

  /** An arrangement of the rest becomes one of the whole. */
  lemma Inserted<T>(x: seq<T>, y: seq<T>, k: nat, m': seq<nat>) returns (m: seq<nat>)
    requires |x| == |y| > k && y[k] == x[|x| - 1] && Permutation(m', |x| - 1)
    requires forall i | 0 <= i < |x| - 1 :: (y[..k] + y[k + 1..])[m'[i]] == x[i]
    ensures Permutation(m, |x|) && forall i | 0 <= i < |x| :: y[m[i]] == x[i]
  {
    var rest := y[..k] + y[k + 1..];
    var up := seq(|m'|, i requires 0 <= i < |m'| => if m'[i] < k then m'[i] else m'[i] + 1);
    m := up + [k];
    UpIsDistinct(m', up, k);
    forall i | 0 <= i < |x| - 1 ensures y[up[i]] == x[i] && up[i] < |x| {
      assert rest[m'[i]] == y[up[i]];
    }
  }

  lemma WithoutOne<T>(y: seq<T>, k: nat)
    requires k < |y|
    ensures multiset(y[..k] + y[k + 1..]) == multiset(y) - multiset{y[k]}
  {
    assert y == y[..k] + [y[k]] + y[k + 1..];
    assert multiset(y) == multiset(y[..k]) + multiset{y[k]} + multiset(y[k + 1..]);
  }

  lemma UpIsDistinct(m: seq<nat>, up: seq<nat>, k: nat)
    requires Distinct(m) && |up| == |m|
    requires forall i | 0 <= i < |m| :: up[i] == if m[i] < k then m[i] else m[i] + 1
    ensures Distinct(up + [k])
  {
  }

  lemma {:induction false} PermutedIsSame<T>(x: seq<T>, y: seq<T>, m: seq<nat>)
    requires |x| == |y| && Permutation(m, |x|) && forall i | 0 <= i < |x| :: y[m[i]] == x[i]
    ensures multiset(x) == multiset(y)
  {
    if x != [] {
      var n := |x| - 1;
      var k := m[n];
      var rest := y[..k] + y[k + 1..];
      var down := seq(n, i requires 0 <= i < n => if m[i] < k then m[i] else m[i] - 1);
      DownIsPermutation(m, down, n);
      forall i | 0 <= i < n ensures rest[down[i]] == x[..n][i] {
        assert m[i] != m[n];
      }
      PermutedIsSame(x[..n], rest, down);
      WithoutOne(y, k);
      assert x == x[..n] + [x[n]];
    }
  }

  lemma DownIsPermutation(m: seq<nat>, down: seq<int>, n: nat)
    requires Permutation(m, n + 1) && |down| == n
    requires forall i | 0 <= i < n :: down[i] == if m[i] < m[n] then m[i] else m[i] - 1
    ensures forall i | 0 <= i < n :: 0 <= down[i] < n
    ensures Distinct(down)
  {
    forall i | 0 <= i < n ensures 0 <= down[i] < n {
      assert m[i] != m[n];
    }
    forall i, j | 0 <= i < j < n ensures down[i] != down[j] {
      assert m[i] != m[j] && m[i] != m[n] && m[j] != m[n];
    }
  }

  /** The resource variables of `a` and `b` can be matched so that matched ones are alike. */
  ghost predicate Matched(a: seq<Line>, b: seq<Line>, m: seq<nat>) {
    var (v, u) := (Gather(Variable, a), Gather(Variable, b));
    Permutation(m, |v|) && |u| == |v| && forall i | 0 <= i < |v| :: Alike(a, v[i], b, u[m[i]])
  }

  /**
   * Two disassemblies have the same ABI text if and only if their resource variables can be matched
   * so that from matched variables every way through the operands ends alike.
   */
  lemma EqualTextsIffMatched(a: seq<Line>, b: seq<Line>)
    requires AbiOf(a).Some? && AbiOf(b).Some?
    ensures AbiOf(a) == AbiOf(b) <==> exists m :: Matched(a, b, m)
  {
    hide Expand, ExpandAll, Text, Sort, Alike, Permutation;
    var (t, u) := (TablesOf(a), TablesOf(b));
    var x, y := ExpandAll(t, t.variables, {}).value, ExpandAll(u, u.variables, {}).value;
    AbiComparesTrees(a, b);
    ExpandAllAt(t, t.variables, {});
    ExpandAllAt(u, u.variables, {});
    forall i, j | 0 <= i < |x| && 0 <= j < |y| ensures x[i] == y[j] <==> Alike(a, t.variables[i], b, u.variables[j]) {
      SameTreeIffAlike(a, t.variables[i], {}, b, u.variables[j], {});
    }
    if multiset(x) == multiset(y) {
      var m := Arranged(x, y);
      InRange(m, |x|);
      assert Matched(a, b, m);
    }
    if m :| Matched(a, b, m) {
      InRange(m, |x|);
      PermutedIsSame(x, y, m);
    }
  }

  lemma InRange(m: seq<nat>, n: nat)
    requires Permutation(m, n)
    ensures |m| == n && forall i | 0 <= i < n :: m[i] < n
  {
  }

  // ---------------------------------------------------------------- what the lines say, word for word

  /** `ops` is said of `id` by a line of this kind. */
  lemma {:induction false} SaidByLine(kind: Line -> Option<Entry>, lines: seq<Line>, id: string, ops: seq<string>)
    ensures ops in Entries(kind, lines, id) <==>
            exists i :: 0 <= i < |lines| && kind(lines[i]) == Some(Entry(id, ops))
  {
    hide Gather;
    GatherFinds(EntryFor(kind, id), lines, ops);
    forall i | 0 <= i < |lines| ensures ops in EntryFor(kind, id)(lines[i]) <==> kind(lines[i]) == Some(Entry(id, ops)) {}
  }

  lemma DecorationsSaid(lines: seq<Line>, id: string, ops: seq<string>)
    ensures ops in Entries(Decoration, lines, id) <==>
            ["OpDecorate", id] + ops in lines && ops != [] && ops[0] != "RelaxedPrecision"
  {
    SaidByLine(Decoration, lines, id, ops);
    forall line: Line ensures Decoration(line) == Some(Entry(id, ops)) <==>
                              line == ["OpDecorate", id] + ops && ops != [] && ops[0] != "RelaxedPrecision" {
      if |line| >= 2 {
        assert line == [line[0], line[1]] + line[2..];
      }
    }
  }

  lemma MembersSaid(lines: seq<Line>, id: string, ops: seq<string>)
    ensures ops in Entries(Member, lines, id) <==> ["OpMemberDecorate", id] + ops in lines
  {
    SaidByLine(Member, lines, id, ops);
    forall line: Line ensures Member(line) == Some(Entry(id, ops)) <==> line == ["OpMemberDecorate", id] + ops {
      if |line| >= 2 {
        assert line == [line[0], line[1]] + line[2..];
      }
    }
  }

  /** The line defines `id` by `ops`. */
  predicate DefiningLine(line: Line, id: string, ops: seq<string>) {
    line == [id, "="] + ops && |ops| >= 2
  }

  /** The definition that counts is the one no later line replaces. */
  lemma {:induction false} DefinitionSaid(lines: seq<Line>, id: string, ops: seq<string>)
    ensures OperandsOf(lines, id) == Some(ops) <==> LastDefining(lines, id, ops)
  {
    hide Entries, DefiningLine;
    if lines == [] {
      EntriesOfNone(Same, Definition, id);
    } else {
      var init, line := lines[..|lines| - 1], lines[|lines| - 1];
      assert lines == init + [line];
      EntriesStep(Definition, init, line, id);
      DefinitionSaid(init, id, ops);
      DefinitionIsDefiningLine(line, id);
      if Definition(line).Some? && Definition(line).value.id == id {
        LastDefines(lines, line, id, ops, Definition(line).value.tokens);
      } else {
        assert Entries(Definition, lines, id) == Entries(Definition, init, id);
        OthersDefine(lines, line, id, ops);
      }
    }
  }

  lemma DefinitionIsDefiningLine(line: Line, id: string)
    ensures forall ops :: DefiningLine(line, id, ops) <==> Definition(line) == Some(Entry(id, ops))
  {
    if |line| >= 2 {
      assert line == [line[0], line[1]] + line[2..];
    }
    forall ops ensures DefiningLine(line, id, ops) <==> Definition(line) == Some(Entry(id, ops)) {
      if DefiningLine(line, id, ops) {
        assert line[2..] == ops;
      }
    }
  }

  ghost predicate LastDefining(lines: seq<Line>, id: string, ops: seq<string>) {
    exists i | 0 <= i < |lines| ::
      DefiningLine(lines[i], id, ops) && forall j, later | i < j < |lines| :: !DefiningLine(lines[j], id, later)
  }

  lemma LastDefines(lines: seq<Line>, line: Line, id: string, ops: seq<string>, tokens: seq<string>)
    requires lines != [] && line == lines[|lines| - 1] && forall x :: DefiningLine(line, id, x) <==> x == tokens
    ensures LastDefining(lines, id, ops) <==> ops == tokens
  {
    hide DefiningLine;
    var n := |lines| - 1;
    assert DefiningLine(lines[n], id, tokens);
  }

  lemma OthersDefine(lines: seq<Line>, line: Line, id: string, ops: seq<string>)
    requires lines != [] && line == lines[|lines| - 1] && forall x :: !DefiningLine(line, id, x)
    ensures LastDefining(lines, id, ops) <==> LastDefining(lines[..|lines| - 1], id, ops)
  {
    hide DefiningLine;
    var init := lines[..|lines| - 1];
    if i :| 0 <= i < |lines| && DefiningLine(lines[i], id, ops)
            && forall j, later | i < j < |lines| :: !DefiningLine(lines[j], id, later) {
      assert init[i] == lines[i] && forall j | 0 <= j < |init| :: init[j] == lines[j];
    }
    if i :| 0 <= i < |init| && DefiningLine(init[i], id, ops)
            && forall j, later | i < j < |init| :: !DefiningLine(init[j], id, later) {
      assert lines[i] == init[i] && forall j | 0 <= j < |init| :: init[j] == lines[j];
    }
  }

  /** Resource variables are those with one of six storage classes. */
  predicate VariableLine(line: Line, v: string) {
    && |line| >= 5 && line[..3] == [v, "=", "OpVariable"]
    && (|| line[4] == "UniformConstant" || line[4] == "Uniform" || line[4] == "StorageBuffer"
        || line[4] == "PushConstant" || line[4] == "Input" || line[4] == "Output")
  }

  lemma VariablesSaid(lines: seq<Line>, v: string)
    ensures v in Gather(Variable, lines) <==> exists i :: 0 <= i < |lines| && VariableLine(lines[i], v)
  {
    hide Gather;
    GatherFinds(Variable, lines, v);
    forall i | 0 <= i < |lines| ensures v in Variable(lines[i]) <==> VariableLine(lines[i], v) {
      VariableSaid(lines[i], v);
    }
  }

  lemma VariableSaid(line: Line, v: string)
    ensures v in Variable(line) <==> VariableLine(line, v)
  {
    if |line| >= 3 {
      assert line[..3] == [line[0], line[1], line[2]];
    }
  }

  /** The loop fails exactly on decoration lines without operands and on variables without storage class. */
  lemma ShortLines(lines: seq<Line>)
    ensures AnyMalformed(lines) <==>
            exists i | 0 <= i < |lines| ::
              || lines[i] == ["OpDecorate"] || (|lines[i]| == 2 && lines[i][0] == "OpDecorate")
              || lines[i] == ["OpMemberDecorate"]
              || (|lines[i]| == 4 && lines[i][1..3] == ["=", "OpVariable"])
  {
    forall i | 0 <= i < |lines|
      ensures Malformed(lines[i]) <==>
              || lines[i] == ["OpDecorate"] || (|lines[i]| == 2 && lines[i][0] == "OpDecorate")
              || lines[i] == ["OpMemberDecorate"]
              || (|lines[i]| == 4 && lines[i][1..3] == ["=", "OpVariable"])
    {
      var line := lines[i];
      if |line| == 1 {
        assert line == [line[0]];
      }
      if |line| == 4 {
        assert line[1..3] == [line[1], line[2]];
      }
    }
  }

  // ---------------------------------------------------------------- the text itself

  predicate Less(x: char, y: char) {
    x < y
  }

  /** Strings in the order of their characters. */
  ghost predicate InOrder(a: string, b: string) {
    exists k: nat :: PartsAt(Less, a, b, k)
  }

  ghost predicate Earlier(a: string, b: string) {
    a != b && InOrder(a, b)
  }

  /** Lists of strings in the order of their strings. */
  ghost predicate ListsInOrder(a: seq<string>, b: seq<string>) {
    exists k | 0 <= k <= |a| && k <= |b| :: a[..k] == b[..k] && (k == |a| || (k < |b| && Earlier(a[k], b[k])))
  }

  lemma StringLeMeans(a: string, b: string)
    ensures StringLe(a, b) <==> InOrder(a, b)
  {
    LexMeans(CharLe, Less, a, b);
  }

  lemma {:induction false} StringsLeMeans(a: seq<string>, b: seq<string>)
    requires StringsLe(a, b)
    ensures ListsInOrder(a, b)
  {
    var smaller := (x: string, y: string) => StringLe(x, y) && x != y;
    LexMeans(StringLe, smaller, a, b);
    var k: nat :| PartsAt(smaller, a, b, k);
    if k < |a| {
      StringLeMeans(a[k], b[k]);
    }
  }

  /** The decorations of an id stand in its tree in ascending order. */
  lemma DecorationsAscend(x: seq<seq<string>>, i: nat, j: nat)
    requires i < j < |Sort(StringsLe, x)|
    ensures ListsInOrder(Sort(StringsLe, x)[i], Sort(StringsLe, x)[j])
  {
    hide TotalOrder, Sort, StringsLe;
    StringsLeIsTotalOrder();
    SortAscending(StringsLe, x);
    StringsLeMeans(Sort(StringsLe, x)[i], Sort(StringsLe, x)[j]);
  }

  /**
   * The ABI text is JSON for a list of trees, one for each resource variable, in ascending order of
   * their own texts.
   */
  lemma TextHoldsSortedRecords(lines: seq<Line>) returns (records: seq<Tree>)
    requires AbiOf(lines).Some?
    ensures AbiOf(lines).value == Text(",", Branch(records))
    ensures ParseValue(AbiOf(lines).value) == Some((Branch(records), ""))
    ensures ExpandAll(TablesOf(lines), Gather(Variable, lines), {}).Some?
    ensures multiset(records) == multiset(ExpandAll(TablesOf(lines), Gather(Variable, lines), {}).value)
    ensures forall i, j | 0 <= i < j < |records| :: InOrder(Text(", ", records[i]), Text(", ", records[j]))
  {
    hide ExpandAll, Text, ParseValue, Sort, TotalOrder, StringLe, InOrder;
    records := Records(TablesOf(lines)).value;
    TextIsJson(",", Branch(records));
    ByTextIsTotalOrder();
    var trees := ExpandAll(TablesOf(lines), TablesOf(lines).variables, {}).value;
    SortAscending(ByText, trees);
    forall i, j | 0 <= i < j < |records| ensures InOrder(Text(", ", records[i]), Text(", ", records[j])) {
      assert ByText(records[i], records[j]);
      StringLeMeans(Text(", ", records[i]), Text(", ", records[j]));
    }
  }
}
