/**
 * The line loop of `abi`: from the tokens of a disassembly to its definitions, decorations, member
 * decorations and resource variables.
 */
module AbiTables {
  import opened Sequences
  import opened Ordering

  /** The whitespace-separated tokens of one line. */
  type Line = seq<string>

  /** Something a line says about an id. */
  datatype Entry = Entry(id: string, tokens: seq<string>)

  datatype Tables = Tables(
    definitions: map<string, seq<string>>,
    decorations: map<string, seq<seq<string>>>,
    members: map<string, seq<seq<string>>>,
    variables: seq<string>)

  predicate IsStorage(t: string) {
    t in ["UniformConstant", "Uniform", "StorageBuffer", "PushConstant", "Input", "Output"]
  }

  // ---------------------------------------------------------------- what one line says

  function Decoration(line: Line): Option<Entry> {
    if |line| >= 3 && line[0] == "OpDecorate" && line[2] != "RelaxedPrecision" then Some(Entry(line[1], line[2..]))
    else None
  }

  function Member(line: Line): Option<Entry> {
    if |line| >= 2 && line[0] == "OpMemberDecorate" then Some(Entry(line[1], line[2..])) else None
  }

  function Definition(line: Line): Option<Entry> {
    if |line| > 3 && line[1] == "=" then Some(Entry(line[0], line[2..])) else None
  }

  function Variable(line: Line): seq<string> {
    if |line| > 4 && line[1] == "=" && line[2] == "OpVariable" && IsStorage(line[4]) then [line[0]] else []
  }

  /** The line is too short for the tokens the loop reads from it. */
  predicate Malformed(line: Line) {
    && line != []
    && (|| (line[0] == "OpDecorate" && |line| < 3)
        || (line[0] == "OpMemberDecorate" && |line| < 2)
        || (|line| == 4 && line[1] == "=" && line[2] == "OpVariable"))
  }

  // ---------------------------------------------------------------- what all lines say

  function EntryFor(kind: Line -> Option<Entry>, id: string): Line -> seq<seq<string>> {
    line => if kind(line).Some? && kind(line).value.id == id then [kind(line).value.tokens] else []
  }

  /** Everything the lines say about `id`, in line order. */
  function Entries(kind: Line -> Option<Entry>, lines: seq<Line>, id: string): seq<seq<string>> {
    Gather(EntryFor(kind, id), lines)
  }

  function IdOf(kind: Line -> Option<Entry>): Line -> seq<string> {
    line => if kind(line).Some? then [kind(line).value.id] else []
  }

  function Last(s: seq<seq<string>>): seq<string> {
    if s == [] then [] else s[|s| - 1]
  }

  function Grouped(kind: Line -> Option<Entry>, lines: seq<Line>): map<string, seq<seq<string>>> {
    map id | id in Gather(IdOf(kind), lines) :: Entries(kind, lines, id)
  }

  /** A later definition of an id replaces an earlier one. */
  function TablesOf(lines: seq<Line>): Tables {
    Tables(
      map id | id in Gather(IdOf(Definition), lines) :: Last(Entries(Definition, lines, id)),
      Grouped(Decoration, lines),
      Grouped(Member, lines),
      Gather(Variable, lines))
  }

  predicate AnyMalformed(lines: seq<Line>) {
    exists i :: 0 <= i < |lines| && Malformed(lines[i])
  }

  function Get(m: map<string, seq<seq<string>>>, id: string): seq<seq<string>> {
    if id in m then m[id] else []
  }

  lemma {:induction false} IdsHaveEntries(kind: Line -> Option<Entry>, lines: seq<Line>, id: string)
    ensures id in Gather(IdOf(kind), lines) <==> Entries(kind, lines, id) != []
  {
    if lines != [] {
      IdsHaveEntries(kind, lines[..|lines| - 1], id);
    }
  }

  /** Looking an id up in a grouped table gives everything said about it. */
  lemma GetGrouped(kind: Line -> Option<Entry>, lines: seq<Line>, id: string)
    ensures Get(Grouped(kind, lines), id) == Entries(kind, lines, id)
  {
    IdsHaveEntries(kind, lines, id);
  }

  // ---------------------------------------------------------------- the loop

  function Appended(m: map<string, seq<seq<string>>>, e: Option<Entry>): map<string, seq<seq<string>>> {
    if e.None? then m else m[e.value.id := Get(m, e.value.id) + [e.value.tokens]]
  }

  lemma GatherOne<S, T>(pick: S -> seq<T>, s: seq<S>, x: S)
    ensures Gather(pick, s + [x]) == Gather(pick, s) + pick(x)
  {
    assert (s + [x])[..|s + [x]| - 1] == s;
  }

  /** What one more line adds to what is said about `id`. */
  lemma EntriesStep(kind: Line -> Option<Entry>, lines: seq<Line>, line: Line, id: string)
    ensures Entries(kind, lines + [line], id) ==
            Entries(kind, lines, id) +
            if kind(line).Some? && kind(line).value.id == id then [kind(line).value.tokens] else []
    ensures id in Gather(IdOf(kind), lines + [line]) <==>
            id in Gather(IdOf(kind), lines) || (kind(line).Some? && kind(line).value.id == id)
  {
    hide Gather;
    GatherOne(IdOf(kind), lines, line);
    GatherOne(EntryFor(kind, id), lines, line);
  }

  lemma GroupedStep(kind: Line -> Option<Entry>, lines: seq<Line>, line: Line)
    ensures Grouped(kind, lines + [line]) == Appended(Grouped(kind, lines), kind(line))
  {
    hide Gather, Entries;
    var next := Grouped(kind, lines + [line]);
    var step := Appended(Grouped(kind, lines), kind(line));
    if kind(line).Some? {
      GetGrouped(kind, lines, kind(line).value.id);
    }
    forall id
      ensures id in next <==> id in step
      ensures id in next ==> next[id] == step[id]
    {
      EntriesStep(kind, lines, line, id);
    }
  }

  lemma DefinitionsStep(lines: seq<Line>, line: Line)
    ensures TablesOf(lines + [line]).definitions ==
            if Definition(line).None? then TablesOf(lines).definitions
            else TablesOf(lines).definitions[Definition(line).value.id := Definition(line).value.tokens]
  {
    hide Gather, Entries, Grouped;
    var next := TablesOf(lines + [line]).definitions;
    var step := if Definition(line).None? then TablesOf(lines).definitions
                else TablesOf(lines).definitions[Definition(line).value.id := Definition(line).value.tokens];
    forall id
      ensures id in next <==> id in step
      ensures id in next ==> next[id] == step[id]
    {
      EntriesStep(Definition, lines, line, id);
    }
  }

  lemma EmptyTables()
    ensures TablesOf([]) == Tables(map[], map[], map[], [])
  {
  }

  /** The loop fails on a line too short to read, and otherwise tabulates what the lines say. */
  method Collect(lines: seq<Line>) returns (r: Option<Tables>)
    ensures r == if AnyMalformed(lines) then None else Some(TablesOf(lines))
  {
    hide Gather, Entries;
    EmptyTables();
    var definitions: map<string, seq<string>> := map[];
    var decorations: map<string, seq<seq<string>>> := map[];
    var members: map<string, seq<seq<string>>> := map[];
    var variables: seq<string> := [];
    for i := 0 to |lines|
      invariant !AnyMalformed(lines[..i])
      invariant Tables(definitions, decorations, members, variables) == TablesOf(lines[..i])
    {
      var tokens := lines[i];
      assert lines[..i + 1] == lines[..i] + [tokens];
      DefinitionsStep(lines[..i], tokens);
      GroupedStep(Decoration, lines[..i], tokens);
      GroupedStep(Member, lines[..i], tokens);
      GatherOne(Variable, lines[..i], tokens);
      if tokens != [] {
        if tokens[0] == "OpDecorate" {
          if |tokens| < 3 { return None; }
          if tokens[2] != "RelaxedPrecision" {
            decorations := decorations[tokens[1] := Get(decorations, tokens[1]) + [tokens[2..]]];
          }
        }
        if tokens[0] == "OpMemberDecorate" {
          if |tokens| < 2 { return None; }
          members := members[tokens[1] := Get(members, tokens[1]) + [tokens[2..]]];
        }
        if |tokens| > 3 && tokens[1] == "=" {
          definitions := definitions[tokens[0] := tokens[2..]];
          if tokens[2] == "OpVariable" {
            if |tokens| < 5 { return None; }
            if IsStorage(tokens[4]) {
              variables := variables + [tokens[0]];
            }
          }
        }
      }
    }
    assert lines[..|lines|] == lines;
    r := Some(Tables(definitions, decorations, members, variables));
  }
}
