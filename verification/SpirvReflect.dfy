/** `reflect`: the loops and dictionaries that decide the fixed ABI, proved to decide exactly it. */
module SpirvReflect {
  import opened Sequences
  import opened SpirvModule

  datatype Tables = Tables(
    definitions: map<nat, (Opcode, seq<Token>)>,
    decorations: map<seq<Token>, seq<Token>>,
    members: map<seq<Token>, seq<Token>>,
    globals: seq<Instr>)

  // ---------------------------------------------------------------- what the dictionaries mean

  ghost predicate DefinitionsMatch(p: seq<Instr>, d: map<nat, (Opcode, seq<Token>)>) {
    && (forall i :: 0 <= i < |p| && p[i].result.Some? ==>
          p[i].result.value in d && d[p[i].result.value] == (p[i].op, p[i].args))
    && (forall n :: n in d ==> exists i :: 0 <= i < |p| && p[i].result == Some(n))
  }

  /** `d` maps the first `n` operands of each `op` to the remaining ones, and nothing else. */
  ghost predicate KeyedMatch(p: seq<Instr>, op: Opcode, n: nat, d: map<seq<Token>, seq<Token>>) {
    && (forall i :: 0 <= i < |p| && p[i].op == op ==>
          n <= |p[i].args| && p[i].args[..n] in d && d[p[i].args[..n]] == p[i].args[n..])
    && (forall k :: k in d ==> |k| == n && exists i :: 0 <= i < |p| && p[i].op == op && p[i].args == k + d[k])
  }

  ghost predicate TablesMatch(p: seq<Instr>, t: Tables) {
    && DefinitionsMatch(p, t.definitions) && KeyedMatch(p, OpDecorate, 2, t.decorations)
    && KeyedMatch(p, OpMemberDecorate, 3, t.members) && t.globals == Globals(p)
  }

  function Definition(t: Tables, id: Token): Option<(Opcode, seq<Token>)> {
    if id.Id? && id.n in t.definitions then Some(t.definitions[id.n]) else None
  }

  predicate HasDecoration(t: Tables, target: Token, kind: Symbol, values: seq<Token>) {
    [target, Sym(kind)] in t.decorations && t.decorations[[target, Sym(kind)]] == values
  }

  predicate HasMember(t: Tables, target: Token, index: nat, kind: Symbol, values: seq<Token>) {
    [target, Num(index), Sym(kind)] in t.members && t.members[[target, Num(index), Sym(kind)]] == values
  }

  lemma DefinitionIff(p: seq<Instr>, t: Tables, id: Token, op: Opcode, args: seq<Token>)
    requires TablesMatch(p, t)
    ensures Definition(t, id) == Some((op, args)) <==> Defines(p, id, op, args)
  {
    hide KeyedMatch, Globals;
  }

  lemma KeyedIff(p: seq<Instr>, op: Opcode, d: map<seq<Token>, seq<Token>>, key: seq<Token>, values: seq<Token>)
    requires KeyedMatch(p, op, |key|, d)
    ensures (key in d && d[key] == values) <==> exists i :: 0 <= i < |p| && p[i].op == op && p[i].args == key + values
  {
    if i :| 0 <= i < |p| && p[i].op == op && p[i].args == key + values {
      assert p[i].args[..|key|] == key && p[i].args[|key|..] == values;
    }
  }

  lemma DecorationIff(p: seq<Instr>, t: Tables, target: Token, kind: Symbol, values: seq<Token>)
    requires TablesMatch(p, t)
    ensures HasDecoration(t, target, kind, values) <==> Decorates(p, target, kind, values)
  {
    KeyedIff(p, OpDecorate, t.decorations, [target, Sym(kind)], values);
  }

  lemma MemberIff(p: seq<Instr>, t: Tables, target: Token, index: nat, kind: Symbol, values: seq<Token>)
    requires TablesMatch(p, t)
    ensures HasMember(t, target, index, kind, values) <==> MemberDecorates(p, target, index, kind, values)
  {
    KeyedIff(p, OpMemberDecorate, t.members, [target, Num(index), Sym(kind)], values);
  }

  // ---------------------------------------------------------------- collecting

  lemma PrefixFacts(p: seq<Instr>, i: nat)
    requires i < |p|
    ensures p[..i + 1][..i] == p[..i] && p[..i + 1][i] == p[i]
    ensures InFunction(p[..i + 1]) <==> p[i].op.OpFunction? || (!p[i].op.OpFunctionEnd? && InFunction(p[..i]))
    ensures Globals(p[..i + 1]) == Globals(p[..i]) + if p[i].op.OpVariable? && !InFunction(p[..i]) then [p[i]] else []
  {
    assert p[..i + 1][..i] == p[..i];
  }

  lemma DefinitionsGrow(p: seq<Instr>, i: nat, d: map<nat, (Opcode, seq<Token>)>)
    requires i < |p| && DefinitionsMatch(p[..i], d)
    ensures p[i].result.None? ==> DefinitionsMatch(p[..i + 1], d)
    ensures p[i].result.Some? && p[i].result.value !in d ==>
              DefinitionsMatch(p[..i + 1], d[p[i].result.value := (p[i].op, p[i].args)])
    ensures p[i].result.Some? ==>
              (p[i].result.value !in d <==> forall j :: 0 <= j < i ==> p[j].result != p[i].result)
  {
    var q := p[..i + 1];
    assert forall j :: 0 <= j < i ==> q[j] == p[..i][j] == p[j];
    if p[i].result.Some? && p[i].result.value !in d {
      var d' := d[p[i].result.value := (p[i].op, p[i].args)];
      forall n | n in d' ensures exists k :: 0 <= k < |q| && q[k].result == Some(n) {
        if n in d {
          var k :| 0 <= k < i && p[..i][k].result == Some(n);
          assert q[k].result == Some(n);
        } else {
          assert q[i].result == Some(n);
        }
      }
    }
    if p[i].result.None? {
      forall n | n in d ensures exists k :: 0 <= k < |q| && q[k].result == Some(n) {
        var k :| 0 <= k < i && p[..i][k].result == Some(n);
        assert q[k].result == Some(n);
      }
    }
    if p[i].result.Some? && p[i].result.value in d {
      var k :| 0 <= k < i && p[..i][k].result == Some(p[i].result.value);
      assert p[k].result == p[i].result;
    }
  }

  lemma KeyFresh(p: seq<Instr>, i: nat, op: Opcode, n: nat, d: map<seq<Token>, seq<Token>>)
    requires i < |p| && KeyedMatch(p[..i], op, n, d) && n <= |p[i].args|
    ensures p[i].args[..n] !in d <==> forall j :: 0 <= j < i && p[j].op == op ==> !SameKey(p[j].args, p[i].args, n)
  {
    var key := p[i].args[..n];
    if key in d {
      var k :| 0 <= k < i && p[..i][k].op == op && p[..i][k].args == key + d[key];
      assert p[k].args[..n] == key;
      assert SameKey(p[k].args, p[i].args, n);
    } else {
      forall j | 0 <= j < i && p[j].op == op ensures !SameKey(p[j].args, p[i].args, n) {
        assert p[..i][j].args[..n] in d;
      }
    }
  }

  lemma KeyedSame(p: seq<Instr>, x: Instr, op: Opcode, n: nat, d: map<seq<Token>, seq<Token>>)
    requires KeyedMatch(p, op, n, d) && x.op != op
    ensures KeyedMatch(p + [x], op, n, d)
  {
    var q := p + [x];
    forall k | k in d ensures |k| == n && exists i :: 0 <= i < |q| && q[i].op == op && q[i].args == k + d[k] {
      var i :| 0 <= i < |p| && p[i].op == op && p[i].args == k + d[k];
      assert q[i] == p[i];
    }
  }

  lemma KeyedAdd(p: seq<Instr>, x: Instr, op: Opcode, n: nat, d: map<seq<Token>, seq<Token>>)
    requires KeyedMatch(p, op, n, d) && x.op == op && n <= |x.args| && x.args[..n] !in d
    ensures KeyedMatch(p + [x], op, n, d[x.args[..n] := x.args[n..]])
  {
    var q := p + [x];
    var d' := d[x.args[..n] := x.args[n..]];
    forall k | k in d' ensures |k| == n && exists i :: 0 <= i < |q| && q[i].op == op && q[i].args == k + d'[k] {
      if k in d {
        var i :| 0 <= i < |p| && p[i].op == op && p[i].args == k + d[k];
        assert q[i] == p[i];
      } else {
        assert q[|p|].args == k + d'[k];
      }
    }
  }

  lemma KeyedGrow(p: seq<Instr>, i: nat, op: Opcode, n: nat, d: map<seq<Token>, seq<Token>>)
    requires i < |p| && KeyedMatch(p[..i], op, n, d)
    ensures p[i].op != op ==> KeyedMatch(p[..i + 1], op, n, d)
    ensures p[i].op == op && n <= |p[i].args| && p[i].args[..n] !in d ==>
              KeyedMatch(p[..i + 1], op, n, d[p[i].args[..n] := p[i].args[n..]])
  {
    assert p[..i + 1] == p[..i] + [p[i]];
    if p[i].op != op {
      KeyedSame(p[..i], p[i], op, n, d);
    } else if n <= |p[i].args| && p[i].args[..n] !in d {
      KeyedAdd(p[..i], p[i], op, n, d);
    }
  }

  /** What the loop tests of the next instruction, in terms of the dictionaries. */
  predicate Admits(t: Tables, inside: bool, x: Instr) {
    && (x.result.Some? ==> x.result.value !in t.definitions)
    && match x.op
       case OpFunction => !inside
       case OpFunctionEnd => inside
       case OpVariable => 2 <= |x.args| <= 3 && (inside ==> x.args[1] == Sym(Function))
       case OpDecorate => 2 <= |x.args| && x.args[..2] !in t.decorations
       case OpMemberDecorate => 3 <= |x.args| && x.args[..3] !in t.members
       case _ => true
  }

  /** The dictionaries after one admitted instruction. */
  function Record(t: Tables, inside: bool, x: Instr): Tables
    requires Admits(t, inside, x)
  {
    Tables(
      if x.result.Some? then t.definitions[x.result.value := (x.op, x.args)] else t.definitions,
      if x.op.OpDecorate? then t.decorations[x.args[..2] := x.args[2..]] else t.decorations,
      if x.op.OpMemberDecorate? then t.members[x.args[..3] := x.args[3..]] else t.members,
      if x.op.OpVariable? && !inside then t.globals + [x] else t.globals)
  }

  lemma AdmitsIff(p: seq<Instr>, i: nat, t: Tables)
    requires i < |p| && TablesMatch(p[..i], t)
    ensures Admits(t, InFunction(p[..i]), p[i]) <==> Fits(p, i)
  {
    hide DefinitionsMatch, KeyedMatch, InFunction, SameKey, Globals;
    DefinitionsGrow(p, i, t.definitions);
    if p[i].op.OpDecorate? && 2 <= |p[i].args| {
      KeyFresh(p, i, OpDecorate, 2, t.decorations);
    }
    if p[i].op.OpMemberDecorate? && 3 <= |p[i].args| {
      KeyFresh(p, i, OpMemberDecorate, 3, t.members);
    }
  }

  lemma RecordMatches(p: seq<Instr>, i: nat, t: Tables)
    requires i < |p| && TablesMatch(p[..i], t) && Admits(t, InFunction(p[..i]), p[i])
    ensures TablesMatch(p[..i + 1], Record(t, InFunction(p[..i]), p[i]))
  {
    PrefixFacts(p, i);
    DefinitionsGrow(p, i, t.definitions);
    KeyedGrow(p, i, OpDecorate, 2, t.decorations);
    KeyedGrow(p, i, OpMemberDecorate, 3, t.members);
  }

  predicate InsideAfter(inside: bool, x: Instr) {
    x.op.OpFunction? || (!x.op.OpFunctionEnd? && inside)
  }

  /** The state of the loop after `i` instructions. */
  ghost predicate CollectedTo(p: seq<Instr>, i: nat, t: Tables, inside: bool) {
    && i <= |p| && (forall j :: 0 <= j < i ==> Fits(p, j))
    && TablesMatch(p[..i], t) && inside == InFunction(p[..i])
  }

  lemma CollectStep(p: seq<Instr>, i: nat, t: Tables, inside: bool)
    requires i < |p| && CollectedTo(p, i, t, inside)
    ensures !Admits(t, inside, p[i]) ==> !Collectible(p)
    ensures Admits(t, inside, p[i]) ==>
              CollectedTo(p, i + 1, Record(t, inside, p[i]), InsideAfter(inside, p[i]))
  {
    AdmitsIff(p, i, t);
    if Admits(t, inside, p[i]) {
      RecordMatches(p, i, t);
      PrefixFacts(p, i);
    }
  }

  lemma CollectStart(p: seq<Instr>, t: Tables)
    requires t == Tables(map[], map[], map[], [])
    ensures CollectedTo(p, 0, t, false)
  {
  }

  lemma CollectEnd(p: seq<Instr>, t: Tables, inside: bool)
    requires CollectedTo(p, |p|, t, inside)
    ensures !inside <==> Collectible(p)
    ensures TablesMatch(p, t)
  {
    assert p[..|p|] == p;
  }

  /** The first loop of `reflect`: one pass that fills the dictionaries and tracks function nesting. */
  method Collect(p: seq<Instr>) returns (ok: bool, t: Tables)
    ensures ok <==> Collectible(p)
    ensures ok ==> TablesMatch(p, t)
  {
    hide CollectedTo, Collectible, TablesMatch, Admits, Record, InsideAfter;
    t := Tables(map[], map[], map[], []);
    var inside := false;
    var i := 0;
    CollectStart(p, t);
    while i < |p|
      invariant i <= |p| && CollectedTo(p, i, t, inside)
    {
      CollectStep(p, i, t, inside);
      if !Admits(t, inside, p[i]) {
        return false, t;
      }
      t, inside := Record(t, inside, p[i]), InsideAfter(inside, p[i]);
      i := i + 1;
    }
    CollectEnd(p, t, inside);
    return !inside, t;
  }

  // ---------------------------------------------------------------- checking, in terms of the dictionaries

  predicate ScalarIn(t: Tables, id: Token, unsigned: bool) {
    Definition(t, id) == Some(if unsigned then (OpTypeInt, [Num(32), Num(0)]) else (OpTypeFloat, [Num(32)]))
  }

  predicate VectorIn(t: Tables, id: Token, unsigned: bool, width: nat) {
    match Definition(t, id)
    case Some((op, args)) =>
      op.OpTypeVector? && |args| == 2 && args[1] == Num(width) && ScalarIn(t, args[0], unsigned)
    case None => false
  }

  /** The type that global `g`'s pointer type refers to, when that pointer has the given storage. */
  function Pointee(t: Tables, g: Instr, storage: Symbol): Option<Token> {
    if !Stored(g, storage) then None
    else match Definition(t, g.args[0])
      case Some((op, args)) =>
        if op.OpTypePointer? && |args| == 2 && args[0] == Sym(storage) then Some(args[1]) else None
      case None => None
  }

  predicate Vec4ArrayIn(t: Tables, elements: Token) {
    && HasDecoration(t, elements, ArrayStride, [Num(16)])
    && match Definition(t, elements)
       case Some((op, args)) => op.OpTypeRuntimeArray? && |args| == 1 && VectorIn(t, args[0], false, 4)
       case None => false
  }

  predicate OutputLayoutIn(t: Tables, name: Token, struct: Token) {
    && HasDecoration(t, name, DescriptorSet, [Num(0)]) && HasDecoration(t, name, Binding, [Num(0)])
    && HasDecoration(t, struct, Block, [])
    && HasMember(t, struct, 0, Offset, [Num(0)]) && HasMember(t, struct, 0, NonReadable, [])
  }

  /** The block and array types of an acceptable StorageBuffer global. */
  function OutputParts(t: Tables, g: Instr): Option<(Token, Token)> {
    if g.result.None? || |g.args| != 2 then None
    else match Pointee(t, g, StorageBuffer)
      case None => None
      case Some(struct) =>
        if !OutputLayoutIn(t, Id(g.result.value), struct) then None
        else match Definition(t, struct)
          case None => None
          case Some((op, args)) =>
            if op.OpTypeStruct? && |args| == 1 && Vec4ArrayIn(t, args[0]) then Some((struct, args[0])) else None
  }

  predicate PushLayoutIn(t: Tables, struct: Token) {
    && HasDecoration(t, struct, Block, [])
    && HasMember(t, struct, 0, Offset, [Num(0)]) && HasMember(t, struct, 1, Offset, [Num(16)])
    && match Definition(t, struct)
       case Some((op, args)) =>
         op.OpTypeStruct? && |args| == 2 && VectorIn(t, args[0], true, 4) && VectorIn(t, args[1], false, 4)
       case None => false
  }

  /** The block type of an acceptable PushConstant global. */
  function PushPart(t: Tables, g: Instr): Option<Token> {
    if |g.args| != 2 then None
    else match Pointee(t, g, PushConstant)
      case None => None
      case Some(struct) => if PushLayoutIn(t, struct) then Some(struct) else None
  }

  predicate InputTypedIn(t: Tables, name: Token, typ: Token) {
    || (HasDecoration(t, name, BuiltIn, [Sym(LocalInvocationIndex)]) && ScalarIn(t, typ, true))
    || ((exists b :: VectorBuiltin(b) && HasDecoration(t, name, BuiltIn, [Sym(b)])) && VectorIn(t, typ, true, 3))
  }

  predicate InputIn(t: Tables, g: Instr) {
    && g.result.Some? && |g.args| == 2
    && match Pointee(t, g, Input)
       case Some(typ) => InputTypedIn(t, Id(g.result.value), typ)
       case None => false
  }

  // ---------------------------------------------------------------- the same checks, in terms of the module

  /** Looking up a dictionary answers exactly what the module defines or decorates. */
  ghost predicate Agrees(p: seq<Instr>, t: Tables) {
    && (forall id, op, args :: Defines(p, id, op, args) <==> Definition(t, id) == Some((op, args)))
    && (forall target, kind, values ::
          Decorates(p, target, kind, values) <==> HasDecoration(t, target, kind, values))
    && (forall target, index: nat, kind, values ::
          MemberDecorates(p, target, index, kind, values) <==> HasMember(t, target, index, kind, values))
  }

  lemma TablesAgree(p: seq<Instr>, t: Tables)
    requires TablesMatch(p, t)
    ensures Agrees(p, t)
  {
    forall id, op, args ensures Defines(p, id, op, args) <==> Definition(t, id) == Some((op, args)) {
      DefinitionIff(p, t, id, op, args);
    }
    forall target, kind, values
      ensures Decorates(p, target, kind, values) <==> HasDecoration(t, target, kind, values)
    {
      DecorationIff(p, t, target, kind, values);
    }
    forall target, index: nat, kind, values
      ensures MemberDecorates(p, target, index, kind, values) <==> HasMember(t, target, index, kind, values)
    {
      MemberIff(p, t, target, index, kind, values);
    }
  }

  lemma ScalarIff(p: seq<Instr>, t: Tables, id: Token, unsigned: bool)
    requires Agrees(p, t)
    ensures ScalarIn(t, id, unsigned) <==> Scalar(p, id, unsigned)
  {
  }

  lemma VectorIff(p: seq<Instr>, t: Tables, id: Token, unsigned: bool, width: nat)
    requires Agrees(p, t)
    ensures VectorIn(t, id, unsigned, width) <==> Vector(p, id, unsigned, width)
  {
    if VectorIn(t, id, unsigned, width) {
      var args := Definition(t, id).value.1;
      assert args == [args[0], Num(width)];
      ScalarIff(p, t, args[0], unsigned);
    }
    if scalar :| Defines(p, id, OpTypeVector, [scalar, Num(width)]) && Scalar(p, scalar, unsigned) {
      ScalarIff(p, t, scalar, unsigned);
    }
  }

  lemma PointeeIff(p: seq<Instr>, t: Tables, g: Instr, storage: Symbol, target: Token)
    requires Agrees(p, t)
    ensures Pointee(t, g, storage) == Some(target) <==> Points(p, g, storage, target)
  {
    if Stored(g, storage) {
      if Pointee(t, g, storage) == Some(target) {
        var args := Definition(t, g.args[0]).value.1;
        assert args == [Sym(storage), target];
      }
    }
  }

  lemma Vec4ArrayIff(p: seq<Instr>, t: Tables, elements: Token)
    requires Agrees(p, t)
    ensures Vec4ArrayIn(t, elements) <==> Vec4Array(p, elements)
  {
    if Vec4ArrayIn(t, elements) {
      var args := Definition(t, elements).value.1;
      assert args == [args[0]];
      VectorIff(p, t, args[0], false, 4);
    }
    if v :| Defines(p, elements, OpTypeRuntimeArray, [v]) && Vector(p, v, false, 4) {
      VectorIff(p, t, v, false, 4);
    }
  }

  lemma OutputLayoutIff(p: seq<Instr>, t: Tables, name: Token, struct: Token)
    requires Agrees(p, t)
    ensures OutputLayoutIn(t, name, struct) <==>
              && Decorates(p, name, DescriptorSet, [Num(0)]) && Decorates(p, name, Binding, [Num(0)])
              && Decorates(p, struct, Block, [])
              && MemberDecorates(p, struct, 0, Offset, [Num(0)]) && MemberDecorates(p, struct, 0, NonReadable, [])
  {
  }

  lemma OutputPartsIff(p: seq<Instr>, t: Tables, g: Instr, struct: Token, elements: Token)
    requires Agrees(p, t)
    ensures OutputParts(t, g) == Some((struct, elements)) <==> OutputAt(p, g, struct, elements)
  {
    hide Vec4ArrayIn, Vec4Array, OutputLayoutIn, Decorates, MemberDecorates;
    PointeeIff(p, t, g, StorageBuffer, struct);
    if g.result.Some? {
      OutputLayoutIff(p, t, Id(g.result.value), struct);
    }
    Vec4ArrayIff(p, t, elements);
    if OutputParts(t, g) == Some((struct, elements)) {
      assert Definition(t, struct).value.1 == [elements];
    }
  }

  lemma PushLayoutIff(p: seq<Instr>, t: Tables, struct: Token)
    requires Agrees(p, t)
    ensures PushLayoutIn(t, struct) <==>
              && Decorates(p, struct, Block, [])
              && MemberDecorates(p, struct, 0, Offset, [Num(0)]) && MemberDecorates(p, struct, 1, Offset, [Num(16)])
              && PushMembers(p, struct)
  {
    if PushLayoutIn(t, struct) {
      var args := Definition(t, struct).value.1;
      assert args == [args[0], args[1]];
      VectorIff(p, t, args[0], true, 4);
      VectorIff(p, t, args[1], false, 4);
    }
    if a, b :| Defines(p, struct, OpTypeStruct, [a, b]) && Vector(p, a, true, 4) && Vector(p, b, false, 4) {
      VectorIff(p, t, a, true, 4);
      VectorIff(p, t, b, false, 4);
    }
  }

  lemma PushPartIff(p: seq<Instr>, t: Tables, g: Instr, struct: Token)
    requires Agrees(p, t)
    ensures PushPart(t, g) == Some(struct) <==> PushAt(p, g, struct)
  {
    PointeeIff(p, t, g, PushConstant, struct);
    PushLayoutIff(p, t, struct);
  }

  lemma InputTypedIff(p: seq<Instr>, t: Tables, name: Token, typ: Token)
    requires Agrees(p, t)
    ensures InputTypedIn(t, name, typ) <==> InputTyped(p, name, typ)
  {
    ScalarIff(p, t, typ, true);
    VectorIff(p, t, typ, true, 3);
  }

  lemma InputIff(p: seq<Instr>, t: Tables, g: Instr)
    requires Agrees(p, t)
    ensures InputIn(t, g) <==> InputAt(p, g)
  {
    if InputIn(t, g) {
      var typ := Pointee(t, g, Input).value;
      PointeeIff(p, t, g, Input, typ);
      InputTypedIff(p, t, Id(g.result.value), typ);
    }
    if InputAt(p, g) {
      var typ :| Points(p, g, Input, typ) && InputTyped(p, Id(g.result.value), typ);
      PointeeIff(p, t, g, Input, typ);
      InputTypedIff(p, t, Id(g.result.value), typ);
    }
  }

  lemma PrivateIff(p: seq<Instr>, t: Tables, g: Instr)
    requires Agrees(p, t)
    ensures Pointee(t, g, Private).Some? <==> PrivateAt(p, g)
  {
    if Pointee(t, g, Private).Some? {
      PointeeIff(p, t, g, Private, Pointee(t, g, Private).value);
    }
    if target :| Points(p, g, Private, target) {
      PointeeIff(p, t, g, Private, target);
    }
  }

  predicate DecorationTablesAllowed(t: Tables) {
    && (forall k :: k in t.decorations ==> |k| == 2 && DecorationAllowed(k[1], t.decorations[k]))
    && (forall k :: k in t.members ==> |k| == 3 && DecorationAllowed(k[2], t.members[k]))
  }

  predicate LayoutTablesClosed(t: Tables, output: Token, struct: Token, elements: Token, push: Token) {
    && (forall k :: k in t.decorations ==> |k| == 2 && DecorationPlaced(k[0], k[1], output, struct, elements, push))
    && (forall k :: k in t.members ==> |k| == 3 && MemberPlaced(k[0], k[1], k[2], struct, push))
  }

  lemma EntryOf(p: seq<Instr>, op: Opcode, n: nat, d: map<seq<Token>, seq<Token>>, k: seq<Token>) returns (i: nat)
    requires KeyedMatch(p, op, n, d) && k in d
    ensures i < |p| && p[i].op == op && n <= |p[i].args| && p[i].args[..n] == k && p[i].args[n..] == d[k]
  {
    i :| 0 <= i < |p| && p[i].op == op && p[i].args == k + d[k];
  }

  lemma KeyOf(p: seq<Instr>, op: Opcode, n: nat, d: map<seq<Token>, seq<Token>>, i: nat)
    requires KeyedMatch(p, op, n, d) && i < |p| && p[i].op == op
    ensures n <= |p[i].args| && p[i].args[..n] in d && d[p[i].args[..n]] == p[i].args[n..]
  {
  }

  lemma DecorationTablesIff(p: seq<Instr>, t: Tables)
    requires TablesMatch(p, t)
    ensures DecorationTablesAllowed(t) <==> DecorationsAllowed(p)
  {
    hide DecorationAllowed, DefinitionsMatch, Globals, KeyedMatch;
    if DecorationsAllowed(p) {
      forall k | k in t.decorations ensures |k| == 2 && DecorationAllowed(k[1], t.decorations[k]) {
        var i := EntryOf(p, OpDecorate, 2, t.decorations, k);
        assert p[i].args[..2][1] == p[i].args[1];
      }
      forall k | k in t.members ensures |k| == 3 && DecorationAllowed(k[2], t.members[k]) {
        var i := EntryOf(p, OpMemberDecorate, 3, t.members, k);
        assert p[i].args[..3][2] == p[i].args[2];
      }
    }
    if DecorationTablesAllowed(t) {
      forall i | 0 <= i < |p|
        ensures p[i].op.OpDecorate? ==> 2 <= |p[i].args| && DecorationAllowed(p[i].args[1], p[i].args[2..])
        ensures p[i].op.OpMemberDecorate? ==> 3 <= |p[i].args| && DecorationAllowed(p[i].args[2], p[i].args[3..])
      {
        if p[i].op.OpDecorate? {
          KeyOf(p, OpDecorate, 2, t.decorations, i);
        }
        if p[i].op.OpMemberDecorate? {
          KeyOf(p, OpMemberDecorate, 3, t.members, i);
        }
      }
    }
  }

  lemma LayoutTablesIff(p: seq<Instr>, t: Tables, output: Token, struct: Token, elements: Token, push: Token)
    requires TablesMatch(p, t)
    ensures LayoutTablesClosed(t, output, struct, elements, push) <==>
            LayoutClosed(p, output, struct, elements, push)
  {
    hide LayoutTablesClosed, LayoutClosed;
    if LayoutClosed(p, output, struct, elements, push) {
      ClosedTables(p, t, output, struct, elements, push);
    }
    if LayoutTablesClosed(t, output, struct, elements, push) {
      ClosedModule(p, t, output, struct, elements, push);
    }
  }

  lemma ClosedTables(p: seq<Instr>, t: Tables, output: Token, struct: Token, elements: Token, push: Token)
    requires TablesMatch(p, t) && LayoutClosed(p, output, struct, elements, push)
    ensures LayoutTablesClosed(t, output, struct, elements, push)
  {
    hide DecorationPlaced, MemberPlaced, DefinitionsMatch, Globals, KeyedMatch;
    forall k | k in t.decorations ensures |k| == 2 && DecorationPlaced(k[0], k[1], output, struct, elements, push) {
      var i := EntryOf(p, OpDecorate, 2, t.decorations, k);
      assert k[0] == p[i].args[0] && k[1] == p[i].args[1];
    }
    forall k | k in t.members ensures |k| == 3 && MemberPlaced(k[0], k[1], k[2], struct, push) {
      var i := EntryOf(p, OpMemberDecorate, 3, t.members, k);
      assert k[0] == p[i].args[0] && k[1] == p[i].args[1] && k[2] == p[i].args[2];
    }
  }

  lemma ClosedModule(p: seq<Instr>, t: Tables, output: Token, struct: Token, elements: Token, push: Token)
    requires TablesMatch(p, t) && LayoutTablesClosed(t, output, struct, elements, push)
    ensures LayoutClosed(p, output, struct, elements, push)
  {
    hide DecorationPlaced, MemberPlaced, DefinitionsMatch, Globals, KeyedMatch;
    forall i | 0 <= i < |p| && p[i].op.OpDecorate? && |p[i].args| >= 2
      ensures DecorationPlaced(p[i].args[0], p[i].args[1], output, struct, elements, push)
    {
      KeyOf(p, OpDecorate, 2, t.decorations, i);
    }
    forall i | 0 <= i < |p| && p[i].op.OpMemberDecorate? && |p[i].args| >= 3
      ensures MemberPlaced(p[i].args[0], p[i].args[1], p[i].args[2], struct, push)
    {
      KeyOf(p, OpMemberDecorate, 3, t.members, i);
    }
  }

  // ---------------------------------------------------------------- the loop over the globals

  /** What the second loop accumulates: outputs with their two types, push block types, input names. */
  datatype Sorted = Sorted(outputs: seq<(Token, Token, Token)>, pushes: seq<Token>, inputs: seq<Token>)

  predicate Sortable(t: Tables, g: Instr) {
    || (Stored(g, StorageBuffer) && OutputParts(t, g).Some?)
    || (Stored(g, PushConstant) && PushPart(t, g).Some?)
    || (Stored(g, Input) && InputIn(t, g))
    || (Stored(g, Private) && Pointee(t, g, Private).Some?)
  }

  function OutputRow(t: Tables, g: Instr): (Token, Token, Token)
    requires Sortable(t, g) && Stored(g, StorageBuffer)
  {
    (Id(g.result.value), OutputParts(t, g).value.0, OutputParts(t, g).value.1)
  }

  function PushRow(t: Tables, g: Instr): Token
    requires Sortable(t, g) && Stored(g, PushConstant)
  {
    PushPart(t, g).value
  }

  function InputRow(t: Tables, g: Instr): Token
    requires Sortable(t, g) && Stored(g, Input)
  {
    Id(g.result.value)
  }

  /** The positions of the globals with this storage, in order. */
  function Where(gs: seq<Instr>, storage: Symbol): (r: seq<nat>)
    ensures forall i :: 0 <= i < |r| ==> r[i] < |gs| && Stored(gs[r[i]], storage)
    ensures forall k :: 0 <= k < |gs| && Stored(gs[k], storage) ==> k in r
    ensures forall i, j :: 0 <= i < j < |r| ==> r[i] < r[j]
  {
    if gs == [] then []
    else
      var init := gs[..|gs| - 1];
      Where(init, storage) + if Stored(gs[|gs| - 1], storage) then [|gs| - 1] else []
  }

  /** What has been accumulated after the globals `gs`. */
  ghost predicate SortedTo(t: Tables, gs: seq<Instr>, s: Sorted) {
    && (forall k :: 0 <= k < |gs| ==> Sortable(t, gs[k]))
    && var (o, u, i) := (Where(gs, StorageBuffer), Where(gs, PushConstant), Where(gs, Input));
    && |s.outputs| == |o| && (forall k :: 0 <= k < |o| ==> s.outputs[k] == OutputRow(t, gs[o[k]]))
    && |s.pushes| == |u| && (forall k :: 0 <= k < |u| ==> s.pushes[k] == PushRow(t, gs[u[k]]))
    && |s.inputs| == |i| && (forall k :: 0 <= k < |i| ==> s.inputs[k] == InputRow(t, gs[i[k]]))
  }

  function SortOne(t: Tables, s: Sorted, g: Instr): Sorted
    requires Sortable(t, g)
  {
    if Stored(g, StorageBuffer) then s.(outputs := s.outputs + [OutputRow(t, g)])
    else if Stored(g, PushConstant) then s.(pushes := s.pushes + [PushRow(t, g)])
    else if Stored(g, Input) then s.(inputs := s.inputs + [InputRow(t, g)])
    else s
  }

  lemma SortStep(t: Tables, gs: seq<Instr>, s: Sorted, g: Instr)
    requires SortedTo(t, gs, s) && Sortable(t, g)
    ensures SortedTo(t, gs + [g], SortOne(t, s, g))
  {
    hide VectorIn, Vec4ArrayIn, OutputLayoutIn, PushLayoutIn, InputTypedIn, Pointee;
    assert (gs + [g])[..|gs|] == gs;
  }

  /** The second loop of `reflect`: every global is classified by its storage class. */
  method SortGlobals(t: Tables) returns (ok: bool, s: Sorted)
    ensures ok <==> forall k :: 0 <= k < |t.globals| ==> Sortable(t, t.globals[k])
    ensures ok ==> SortedTo(t, t.globals, s)
  {
    s := Sorted([], [], []);
    var i := 0;
    while i < |t.globals|
      invariant i <= |t.globals| && SortedTo(t, t.globals[..i], s)
    {
      var g := t.globals[i];
      if !Sortable(t, g) {
        return false, s;
      }
      SortStep(t, t.globals[..i], s, g);
      assert t.globals[..i + 1] == t.globals[..i] + [g];
      s := SortOne(t, s, g);
      i := i + 1;
    }
    assert t.globals[..i] == t.globals;
    return true, s;
  }

  // ---------------------------------------------------------------- reflect

  predicate SameElements(a: seq<Token>, b: seq<Token>) {
    (forall x :: x in a ==> x in b) && (forall x :: x in b ==> x in a)
  }

  /** The checks that follow the second loop. */
  predicate SortedMatches(t: Tables, s: Sorted, interfaces: seq<Token>) {
    && |s.outputs| == 1 && |s.pushes| == 1
    && SameElements(s.inputs, interfaces)
    && LayoutTablesClosed(t, s.outputs[0].0, s.outputs[0].1, s.outputs[0].2, s.pushes[0])
  }

  lemma SortableIff(p: seq<Instr>, t: Tables, g: Instr)
    requires Agrees(p, t)
    ensures Sortable(t, g) <==>
              || (exists struct, elements :: OutputAt(p, g, struct, elements)) || (exists struct :: PushAt(p, g, struct))
              || InputAt(p, g) || PrivateAt(p, g)
  {
    if OutputParts(t, g).Some? {
      OutputPartsIff(p, t, g, OutputParts(t, g).value.0, OutputParts(t, g).value.1);
    }
    if struct, elements :| OutputAt(p, g, struct, elements) {
      OutputPartsIff(p, t, g, struct, elements);
    }
    if PushPart(t, g).Some? {
      PushPartIff(p, t, g, PushPart(t, g).value);
    }
    if struct :| PushAt(p, g, struct) {
      PushPartIff(p, t, g, struct);
    }
    InputIff(p, t, g);
    PrivateIff(p, t, g);
  }

  lemma InputNames(t: Tables, s: Sorted, x: Token)
    requires SortedTo(t, t.globals, s)
    ensures x in s.inputs <==>
              exists k :: 0 <= k < |t.globals| && Stored(t.globals[k], Input) && t.globals[k].result.Some?
                          && Id(t.globals[k].result.value) == x
  {
    hide InputTypedIn, OutputParts, PushPart, Pointee;
    var at := Where(t.globals, Input);
    if x in s.inputs {
      var i :| 0 <= i < |s.inputs| && s.inputs[i] == x;
      assert Stored(t.globals[at[i]], Input) && s.inputs[i] == InputRow(t, t.globals[at[i]]);
    }
    if k :| 0 <= k < |t.globals| && Stored(t.globals[k], Input) && t.globals[k].result.Some?
            && Id(t.globals[k].result.value) == x {
      assert Sortable(t, t.globals[k]) && k in at;
      var i :| 0 <= i < |at| && at[i] == k;
      assert s.inputs[i] == InputRow(t, t.globals[k]);
    }
  }

  lemma InputsAreIff(t: Tables, s: Sorted, interfaces: seq<Token>)
    requires SortedTo(t, t.globals, s)
    ensures SameElements(s.inputs, interfaces) <==> InputsAre(t.globals, interfaces)
  {
    forall x
      ensures x in s.inputs <==>
                exists k :: 0 <= k < |t.globals| && Stored(t.globals[k], Input) && t.globals[k].result.Some?
                            && Id(t.globals[k].result.value) == x
    {
      InputNames(t, s, x);
    }
    assert forall k :: 0 <= k < |t.globals| && Stored(t.globals[k], Input) ==> t.globals[k].result.Some? by {
      assert forall k :: 0 <= k < |t.globals| ==> Sortable(t, t.globals[k]);
    }
    hide SortedTo;
  }

  lemma StorageOf(p: seq<Instr>, g: Instr)
    ensures forall struct, elements :: OutputAt(p, g, struct, elements) ==> Stored(g, StorageBuffer) && g.result.Some?
    ensures forall struct :: PushAt(p, g, struct) ==> Stored(g, PushConstant)
    ensures InputAt(p, g) ==> Stored(g, Input)
    ensures PrivateAt(p, g) ==> Stored(g, Private)
  {
    hide InputTyped, Decorates, MemberDecorates, PushMembers, Vec4Array, Defines;
  }

  lemma WhereOne(gs: seq<Instr>, storage: Symbol, k: nat)
    requires k < |gs| && Stored(gs[k], storage) && forall j :: 0 <= j < |gs| && Stored(gs[j], storage) ==> j == k
    ensures Where(gs, storage) == [k]
  {
    var r := Where(gs, storage);
    assert k in r && forall i :: 0 <= i < |r| ==> r[i] == k;
    assert r[0] == k && r[|r| - 1] == k;
  }

  lemma SortedHeads(t: Tables, s: Sorted) returns (o: nat, u: nat)
    requires SortedTo(t, t.globals, s) && |s.outputs| == 1 && |s.pushes| == 1
    ensures o < |t.globals| && t.globals[o].result.Some? && s.outputs[0].0 == Id(t.globals[o].result.value)
    ensures OutputParts(t, t.globals[o]) == Some((s.outputs[0].1, s.outputs[0].2))
    ensures u < |t.globals| && PushPart(t, t.globals[u]) == Some(s.pushes[0])
    ensures forall k :: 0 <= k < |t.globals| && k != o && k != u ==>
              InputIn(t, t.globals[k]) || Pointee(t, t.globals[k], Private).Some?
  {
    hide VectorIn, Vec4ArrayIn, OutputLayoutIn, PushLayoutIn, InputTypedIn;
    var g := t.globals;
    o, u := Where(g, StorageBuffer)[0], Where(g, PushConstant)[0];
    assert s.outputs[0] == OutputRow(t, g[o]) && s.pushes[0] == PushRow(t, g[u]);
    forall k | 0 <= k < |g| && k != o && k != u ensures InputIn(t, g[k]) || Pointee(t, g[k], Private).Some? {
      assert Sortable(t, g[k]);
      assert !Stored(g[k], StorageBuffer) && !Stored(g[k], PushConstant);
    }
  }

  lemma SortedGivesResources(p: seq<Instr>, t: Tables, s: Sorted)
    requires TablesMatch(p, t) && Agrees(p, t) && EntryShape(p)
    requires SortedTo(t, t.globals, s) && SortedMatches(t, s, Interfaces(p))
    ensures exists o: nat, u: nat, struct, elements, push :: Resources(p, o, u, struct, elements, push)
  {
    hide Agrees, OutputAt, PushAt, InputAt, PrivateAt, LayoutClosed, LayoutTablesClosed, InputsAre, EntryShape,
      InputIn, OutputParts, PushPart, Pointee, SameElements, SortedTo, KeyedMatch, DefinitionsMatch;
    var g := t.globals;
    var o, u := SortedHeads(t, s);
    var (name, struct, elements) := s.outputs[0];
    var push := s.pushes[0];
    OutputPartsIff(p, t, g[o], struct, elements);
    PushPartIff(p, t, g[u], push);
    forall k | 0 <= k < |g| && k != o && k != u ensures InputAt(p, g[k]) || PrivateAt(p, g[k]) {
      InputIff(p, t, g[k]);
      PrivateIff(p, t, g[k]);
    }
    InputsAreIff(t, s, Interfaces(p));
    LayoutTablesIff(p, t, name, struct, elements, push);
    assert Resources(p, o, u, struct, elements, push);
  }

  lemma SoleHeads(t: Tables, s: Sorted, o: nat, u: nat)
    requires SortedTo(t, t.globals, s) && o < |t.globals| && u < |t.globals|
    requires Stored(t.globals[o], StorageBuffer) && Stored(t.globals[u], PushConstant)
    requires forall k :: 0 <= k < |t.globals| && k != o && k != u ==>
               Stored(t.globals[k], Input) || Stored(t.globals[k], Private)
    ensures |s.outputs| == 1 && |s.pushes| == 1 && Sortable(t, t.globals[o]) && Sortable(t, t.globals[u])
    ensures s.outputs[0] == OutputRow(t, t.globals[o]) && s.pushes[0] == PushRow(t, t.globals[u])
  {
    WhereOne(t.globals, StorageBuffer, o);
    WhereOne(t.globals, PushConstant, u);
  }

  lemma ResourcesAreSortable(p: seq<Instr>, t: Tables, o: nat, u: nat, struct: Token, elements: Token, push: Token)
    requires TablesMatch(p, t) && Agrees(p, t) && EntryShape(p) && Resources(p, o, u, struct, elements, push)
    ensures forall k :: 0 <= k < |t.globals| ==> Sortable(t, t.globals[k])
  {
    hide Agrees, OutputAt, PushAt, InputAt, PrivateAt, Sortable, LayoutClosed, InputsAre, EntryShape;
    forall k | 0 <= k < |t.globals| ensures Sortable(t, t.globals[k]) {
      SortableIff(p, t, t.globals[k]);
    }
  }

  lemma ResourcesGiveSorted(
    p: seq<Instr>, t: Tables, s: Sorted, o: nat, u: nat, struct: Token, elements: Token, push: Token)
    requires TablesMatch(p, t) && Agrees(p, t) && EntryShape(p) && SortedTo(t, t.globals, s)
    requires Resources(p, o, u, struct, elements, push)
    ensures SortedMatches(t, s, Interfaces(p))
  {
    hide Agrees, OutputAt, PushAt, InputAt, PrivateAt, LayoutClosed, LayoutTablesClosed, InputsAre, EntryShape,
      OutputParts, PushPart, InputIn, Pointee, KeyedMatch, DefinitionsMatch, SameElements, SortedTo;
    var g := t.globals;
    OutputPartsIff(p, t, g[o], struct, elements);
    PushPartIff(p, t, g[u], push);
    forall k | 0 <= k < |g| ensures k != o && k != u ==> Stored(g[k], Input) || Stored(g[k], Private) {
      StorageOf(p, g[k]);
    }
    StorageOf(p, g[o]);
    StorageOf(p, g[u]);
    SoleHeads(t, s, o, u);
    InputsAreIff(t, s, Interfaces(p));
    LayoutTablesIff(p, t, Id(g[o].result.value), struct, elements, push);
  }

  lemma EntryFunctionIff(p: seq<Instr>, t: Tables, id: Token)
    requires TablesMatch(p, t)
    ensures (Definition(t, id).Some? && Definition(t, id).value.0.OpFunction?) <==> DefinesFunction(p, id)
  {
  }

  /** `reflect` accepts exactly the modules with the fixed ABI. */
  method Reflect(p: seq<Instr>) returns (ok: bool)
    ensures ok <==> FixedAbi(p)
  {
    hide Collectible, Preamble, EntryShape, EntryMode, DefinesFunction, DecorationsAllowed, DecorationTablesAllowed,
      ScalarsAllowed, Resources, TablesMatch;
    var collected, t := Collect(p);
    if !collected || !Preamble(p) || !EntryShape(p) {
      return false;
    }
    EntryFunctionIff(p, t, EntryId(p));
    var entry := Definition(t, EntryId(p));
    if entry.None? || !entry.value.0.OpFunction? || !EntryMode(p) {
      return false;
    }
    DecorationTablesIff(p, t);
    if !DecorationTablesAllowed(t) || !ScalarsAllowed(p) {
      return false;
    }
    ok := CheckResources(p, t);
  }

  method CheckResources(p: seq<Instr>, t: Tables) returns (ok: bool)
    requires TablesMatch(p, t) && EntryShape(p)
    ensures ok <==> exists o: nat, u: nat, struct, elements, push :: Resources(p, o, u, struct, elements, push)
  {
    TablesAgree(p, t);
    var sortable, s := SortGlobals(t);
    forall o: nat, u: nat, struct, elements, push | Resources(p, o, u, struct, elements, push)
      ensures sortable && SortedMatches(t, s, Interfaces(p))
    {
      ResourcesAreSortable(p, t, o, u, struct, elements, push);
      ResourcesGiveSorted(p, t, s, o, u, struct, elements, push);
    }
    if sortable && SortedMatches(t, s, Interfaces(p)) {
      SortedGivesResources(p, t, s);
      return true;
    }
    return false;
  }
}
