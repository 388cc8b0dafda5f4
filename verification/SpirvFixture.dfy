/** An accepted file: the interface instructions of the hand-written test module, written as words. */
module SpirvFixture {
  import opened Sequences
  import opened SpirvWords
  import opened SpirvModule
  import opened SpirvBinary
  import opened SpirvEncode

  function Annotations(): seq<Instr> {
    [
      Instr(None, OpCapability, [Sym(Shader)]),
      Instr(None, OpMemoryModel, [Sym(Logical), Sym(GLSL450)]),
      Instr(None, OpEntryPoint, [Sym(GLCompute), Id(15), Text(MAIN)]),
      Instr(None, OpExecutionMode, [Id(15), Sym(LocalSize), Num(2), Num(1), Num(1)]),
      Instr(None, OpDecorate, [Id(7), Sym(ArrayStride), Num(16)]),
      Instr(None, OpDecorate, [Id(8), Sym(Block)]),
      Instr(None, OpMemberDecorate, [Id(8), Num(0), Sym(Offset), Num(0)]),
      Instr(None, OpMemberDecorate, [Id(8), Num(0), Sym(NonReadable)]),
      Instr(None, OpDecorate, [Id(10), Sym(DescriptorSet), Num(0)]),
      Instr(None, OpDecorate, [Id(10), Sym(Binding), Num(0)]),
      Instr(None, OpDecorate, [Id(11), Sym(Block)]),
      Instr(None, OpMemberDecorate, [Id(11), Num(0), Sym(Offset), Num(0)]),
      Instr(None, OpMemberDecorate, [Id(11), Num(1), Sym(Offset), Num(16)])
    ]
  }

  function Declarations(): seq<Instr> {
    [
      Instr(Some(1), OpTypeVoid, []),
      Instr(Some(2), OpTypeBool, []),
      Instr(Some(3), OpTypeInt, [Num(32), Num(0)]),
      Instr(Some(4), OpTypeFloat, [Num(32)]),
      Instr(Some(5), OpTypeVector, [Id(4), Num(4)]),
      Instr(Some(6), OpTypeVector, [Id(3), Num(4)]),
      Instr(Some(7), OpTypeRuntimeArray, [Id(5)]),
      Instr(Some(8), OpTypeStruct, [Id(7)]),
      Instr(Some(9), OpTypePointer, [Sym(StorageBuffer), Id(8)]),
      Instr(Some(10), OpVariable, [Id(9), Sym(StorageBuffer)]),
      Instr(Some(11), OpTypeStruct, [Id(6), Id(5)]),
      Instr(Some(12), OpTypePointer, [Sym(PushConstant), Id(11)]),
      Instr(Some(13), OpVariable, [Id(12), Sym(PushConstant)]),
      Instr(Some(14), OpTypeFunction, [Id(1)]),
      Instr(Some(15), OpFunction, [Id(1), Num(0), Id(14)]),
      Instr(None, OpFunctionEnd, [])
    ]
  }

  function Fixture(): (p: seq<Instr>)
    ensures |p| == 29
    ensures forall i | 0 <= i < 13 :: p[i] == Annotations()[i]
    ensures forall i | 13 <= i < 29 :: p[i] == Declarations()[i - 13]
  {
    Annotations() + Declarations()
  }

  lemma {:induction false} OpsNone(p: seq<Instr>, op: Opcode)
    requires forall i | 0 <= i < |p| :: p[i].op != op
    ensures Ops(p, op) == []
  {
    if p != [] {
      OpsNone(p[..|p| - 1], op);
    }
  }

  lemma {:induction false} OpsOne(p: seq<Instr>, op: Opcode, k: nat)
    requires k < |p| && p[k].op == op && forall i | 0 <= i < |p| && i != k :: p[i].op != op
    ensures Ops(p, op) == [p[k].args]
  {
    if k == |p| - 1 {
      OpsNone(p[..|p| - 1], op);
    } else {
      OpsOne(p[..|p| - 1], op, k);
    }
  }

  lemma {:induction false} OutsideFunctions(p: seq<Instr>)
    requires forall i | 0 <= i < |p| :: !p[i].op.OpFunction?
    ensures !InFunction(p)
  {
    if p != [] {
      OutsideFunctions(p[..|p| - 1]);
    }
  }

  lemma {:induction false} NoGlobals(p: seq<Instr>)
    requires forall i | 0 <= i < |p| :: !p[i].op.OpVariable?
    ensures Globals(p) == []
  {
    if p != [] {
      NoGlobals(p[..|p| - 1]);
    }
  }

  lemma {:induction false} MoreGlobals(p: seq<Instr>, k: nat)
    requires k < |p| && p[k].op.OpVariable? && !InFunction(p[..k])
    requires forall i | k < i < |p| :: !p[i].op.OpVariable?
    ensures Globals(p) == Globals(p[..k]) + [p[k]]
  {
    var init := p[..|p| - 1];
    if k < |p| - 1 {
      assert init[..k] == p[..k];
      MoreGlobals(init, k);
    }
  }

  /** What kind of instruction stands at each place. */
  predicate Shaped(x: Instr, i: int) {
    && x.result == (if 13 <= i < 28 then Some(i - 12) else None)
    && (x.op.OpFunction? <==> i == 27) && (x.op.OpFunctionEnd? <==> i == 28)
    && (x.op.OpVariable? <==> i == 22 || i == 25)
    && (x.op.OpDecorate? <==> (i == 4 || i == 5 || i == 8 || i == 9 || i == 10))
    && (x.op.OpMemberDecorate? <==> (i == 6 || i == 7 || i == 11 || i == 12))
    && (x.op.OpTypeInt? <==> i == 15) && (x.op.OpTypeFloat? <==> i == 16)
    && (x.op.OpCapability? <==> i == 0) && (x.op.OpMemoryModel? <==> i == 1)
    && (x.op.OpEntryPoint? <==> i == 2) && (x.op.OpExecutionMode? <==> i == 3)
    && !x.op.OpExtInstImport? && !Forbidden(x.op)
  }

  lemma AnnotationShape(i: nat)
    requires i < 13
    ensures Shaped(Annotations()[i], i)
  {
    if i < 4 {
      if i < 2 { if i == 0 {} else {} } else { if i == 2 {} else {} }
    } else if i < 8 {
      if i < 6 { if i == 4 {} else {} } else { if i == 6 {} else {} }
    } else if i < 11 {
      if i == 8 {} else if i == 9 {} else {}
    } else {
      if i == 11 {} else {}
    }
  }

  lemma TypeShape(i: nat)
    requires i < 8
    ensures Shaped(Declarations()[i], i + 13)
  {
    if i < 4 {
      if i < 2 { if i == 0 {} else {} } else { if i == 2 {} else {} }
    } else {
      if i < 6 { if i == 4 {} else {} } else { if i == 6 {} else {} }
    }
  }

  lemma DeclarationShape(i: nat)
    requires 8 <= i < 16
    ensures Shaped(Declarations()[i], i + 13)
  {
    if i < 12 {
      if i < 10 { if i == 8 {} else {} } else { if i == 10 {} else {} }
    } else {
      if i < 14 { if i == 12 {} else {} } else { if i == 14 {} else {} }
    }
  }

  lemma FixtureShape(i: nat)
    requires i < 29
    ensures Shaped(Fixture()[i], i)
  {
    hide Shaped;
    if i < 13 { AnnotationShape(i); } else if i < 21 { TypeShape(i - 13); } else { DeclarationShape(i - 13); }
  }

  lemma FixtureOps()
    ensures Preamble(Fixture())
    ensures Ops(Fixture(), OpEntryPoint) == [Fixture()[2].args]
    ensures Ops(Fixture(), OpExecutionMode) == [Fixture()[3].args]
  {
    hide Ops, Forbidden, Fixture, Annotations, Declarations;
    var p := Fixture();
    forall i | 0 <= i < |p|
      ensures (p[i].op == OpCapability <==> i == 0) && (p[i].op == OpMemoryModel <==> i == 1)
      ensures (p[i].op == OpEntryPoint <==> i == 2) && (p[i].op == OpExecutionMode <==> i == 3)
      ensures p[i].op != OpExtInstImport && !Forbidden(p[i].op)
    {
      FixtureShape(i);
    }
    OpsOne(p, OpCapability, 0);
    OpsOne(p, OpMemoryModel, 1);
    OpsOne(p, OpEntryPoint, 2);
    OpsOne(p, OpExecutionMode, 3);
    OpsNone(p, OpExtInstImport);
    FixtureArguments();
  }

  lemma FixtureArguments()
    ensures Fixture()[0].args == [Sym(Shader)] && Fixture()[1].args == [Sym(Logical), Sym(GLSL450)]
    ensures Fixture()[2].args == [Sym(GLCompute), Id(15), Text(MAIN)]
    ensures Fixture()[3].args == [Id(15), Sym(LocalSize), Num(2), Num(1), Num(1)]
  {
  }

  lemma FixtureGlobals()
    ensures Globals(Fixture()) == [Fixture()[22], Fixture()[25]]
  {
    hide Globals, InFunction, Fixture, Annotations, Declarations;
    var p := Fixture();
    forall i | 0 <= i < |p|
      ensures (p[i].op.OpFunction? <==> i == 27) && (p[i].op.OpVariable? <==> i == 22 || i == 25)
    {
      FixtureShape(i);
    }
    OutsideFunctions(p[..25]);
    OutsideFunctions(p[..22]);
    MoreGlobals(p, 25);
    var q := p[..25];
    assert q[..22] == p[..22];
    MoreGlobals(q, 22);
    NoGlobals(q[..22]);
  }

  lemma FixtureKeys(i: nat, j: nat)
    requires j < i < 29
    ensures var p := Fixture(); p[i].op.OpDecorate? && p[j].op.OpDecorate? ==> !SameKey(p[j].args, p[i].args, 2)
    ensures var p := Fixture();
            p[i].op.OpMemberDecorate? && p[j].op.OpMemberDecorate? ==> !SameKey(p[j].args, p[i].args, 3)
  {
    var p := Fixture();
    if p[i].op.OpDecorate? && p[j].op.OpDecorate? {
      FixtureShape(i);
      FixtureShape(j);
      assert p[j].args[..2][0] == p[j].args[0] && p[j].args[..2][1] == p[j].args[1];
      assert p[i].args[..2][0] == p[i].args[0] && p[i].args[..2][1] == p[i].args[1];
    }
    if p[i].op.OpMemberDecorate? && p[j].op.OpMemberDecorate? {
      FixtureShape(i);
      FixtureShape(j);
      assert p[j].args[..3][0] == p[j].args[0] && p[j].args[..3][1] == p[j].args[1] && p[j].args[..3][2] == p[j].args[2];
      assert p[i].args[..3][0] == p[i].args[0] && p[i].args[..3][1] == p[i].args[1] && p[i].args[..3][2] == p[i].args[2];
    }
  }

  lemma FixtureFits(i: nat)
    requires i < 29
    ensures Fits(Fixture(), i)
  {
    hide InFunction, SameKey, Fixture, Annotations, Declarations;
    var p := Fixture();
    FixtureShape(i);
    forall j | 0 <= j < i
      ensures p[i].result.Some? ==> p[j].result != p[i].result
      ensures p[i].op.OpDecorate? && p[j].op.OpDecorate? ==> !SameKey(p[j].args, p[i].args, 2)
      ensures p[i].op.OpMemberDecorate? && p[j].op.OpMemberDecorate? ==> !SameKey(p[j].args, p[i].args, 3)
      ensures j < 27 ==> !p[j].op.OpFunction?
    {
      FixtureShape(j);
      FixtureKeys(i, j);
    }
    FixtureLengths();
    if i < 28 {
      OutsideFunctions(p[..i]);
    } else {
      FixtureShape(27);
      AfterFunction(p[..28]);
    }
  }

  lemma AfterFunction(p: seq<Instr>)
    requires p != [] && p[|p| - 1].op.OpFunction?
    ensures InFunction(p)
  {
  }

  lemma FixtureLengths()
    ensures var p := Fixture();
            && |p[22].args| == 2 && |p[25].args| == 2
            && |p[4].args| == 3 && |p[5].args| == 2 && |p[8].args| == 3 && |p[9].args| == 3 && |p[10].args| == 2
            && |p[6].args| == 4 && |p[7].args| == 3 && |p[11].args| == 4 && |p[12].args| == 4
  {
  }

  // ---------------------------------------------------------------- its parts

  lemma DefinesAt(p: seq<Instr>, i: nat)
    requires i < |p| && p[i].result.Some?
    ensures Defines(p, Id(p[i].result.value), p[i].op, p[i].args)
  {
  }

  lemma DecoratesAt(p: seq<Instr>, i: nat, kind: Symbol, values: seq<Token>)
    requires i < |p| && p[i].op.OpDecorate? && |p[i].args| >= 2
    requires p[i].args[1] == Sym(kind) && p[i].args[2..] == values
    ensures Decorates(p, p[i].args[0], kind, values)
  {
    assert p[i].args == [p[i].args[0], Sym(kind)] + values;
  }

  lemma MemberDecoratesAt(p: seq<Instr>, i: nat, index: nat, kind: Symbol, values: seq<Token>)
    requires i < |p| && p[i].op.OpMemberDecorate? && |p[i].args| >= 3
    requires p[i].args[1] == Num(index) && p[i].args[2] == Sym(kind) && p[i].args[3..] == values
    ensures MemberDecorates(p, p[i].args[0], index, kind, values)
  {
    assert p[i].args == [p[i].args[0], Num(index), Sym(kind)] + values;
  }

  lemma FixtureDecorations()
    ensures var p := Fixture();
            && Decorates(p, Id(7), ArrayStride, [Num(16)]) && Decorates(p, Id(8), Block, [])
            && Decorates(p, Id(10), DescriptorSet, [Num(0)]) && Decorates(p, Id(10), Binding, [Num(0)])
            && Decorates(p, Id(11), Block, [])
            && MemberDecorates(p, Id(8), 0, Offset, [Num(0)]) && MemberDecorates(p, Id(8), 0, NonReadable, [])
            && MemberDecorates(p, Id(11), 0, Offset, [Num(0)]) && MemberDecorates(p, Id(11), 1, Offset, [Num(16)])
  {
    hide Decorates, MemberDecorates;
    var p := Fixture();
    DecoratesAt(p, 4, ArrayStride, [Num(16)]);
    DecoratesAt(p, 5, Block, []);
    DecoratesAt(p, 8, DescriptorSet, [Num(0)]);
    DecoratesAt(p, 9, Binding, [Num(0)]);
    DecoratesAt(p, 10, Block, []);
    MemberDecoratesAt(p, 6, 0, Offset, [Num(0)]);
    MemberDecoratesAt(p, 7, 0, NonReadable, []);
    MemberDecoratesAt(p, 11, 0, Offset, [Num(0)]);
    MemberDecoratesAt(p, 12, 1, Offset, [Num(16)]);
  }

  lemma FixtureDefinitions()
    ensures var p := Fixture();
            && Defines(p, Id(3), OpTypeInt, [Num(32), Num(0)]) && Defines(p, Id(4), OpTypeFloat, [Num(32)])
            && Defines(p, Id(5), OpTypeVector, [Id(4), Num(4)]) && Defines(p, Id(6), OpTypeVector, [Id(3), Num(4)])
            && Defines(p, Id(7), OpTypeRuntimeArray, [Id(5)]) && Defines(p, Id(8), OpTypeStruct, [Id(7)])
            && Defines(p, Id(9), OpTypePointer, [Sym(StorageBuffer), Id(8)])
            && Defines(p, Id(11), OpTypeStruct, [Id(6), Id(5)])
            && Defines(p, Id(12), OpTypePointer, [Sym(PushConstant), Id(11)])
  {
    hide Defines;
    var p, s := Fixture(), Declarations();
    assert p[15] == s[2] && p[16] == s[3] && p[17] == s[4] && p[18] == s[5] && p[19] == s[6];
    assert p[20] == s[7] && p[21] == s[8] && p[23] == s[10] && p[24] == s[11];
    DefinesAt(p, 15);
    DefinesAt(p, 16);
    DefinesAt(p, 17);
    DefinesAt(p, 18);
    DefinesAt(p, 19);
    DefinesAt(p, 20);
    DefinesAt(p, 21);
    DefinesAt(p, 23);
    DefinesAt(p, 24);
  }

  lemma FixtureVectors()
    ensures Vector(Fixture(), Id(5), false, 4) && Vector(Fixture(), Id(6), true, 4)
  {
    hide Fixture, Annotations, Declarations, Defines;
    FixtureDefinitions();
    assert Scalar(Fixture(), Id(4), false) && Scalar(Fixture(), Id(3), true);
  }

  lemma FixtureAllowed()
    ensures DecorationsAllowed(Fixture()) && ScalarsAllowed(Fixture())
    ensures LayoutClosed(Fixture(), Id(10), Id(8), Id(7), Id(11))
  {
    hide Shaped, DecorationAllowed, DecorationPlaced, MemberPlaced;
    var p := Fixture();
    FixtureAnnotationsAllowed();
    forall i | 0 <= i < |p|
      ensures p[i].op.OpDecorate? ==> i in {4, 5, 8, 9, 10}
      ensures p[i].op.OpMemberDecorate? ==> i in {6, 7, 11, 12}
      ensures (p[i].op.OpTypeInt? ==> i == 15) && (p[i].op.OpTypeFloat? ==> i == 16)
    {
      FixtureKinds(i);
    }
  }

  lemma FixtureKinds(i: nat)
    requires i < 29
    ensures var x := Fixture()[i];
            && (x.op.OpDecorate? ==> i in {4, 5, 8, 9, 10})
            && (x.op.OpMemberDecorate? ==> i in {6, 7, 11, 12})
            && (x.op.OpTypeInt? ==> i == 15) && (x.op.OpTypeFloat? ==> i == 16)
  {
    hide Fixture, Annotations, Declarations;
    FixtureShape(i);
  }

  lemma FixtureAnnotationsAllowed()
    ensures var p := Fixture();
            forall i | i in {4, 5, 8, 9, 10} ::
              && |p[i].args| >= 2 && DecorationAllowed(p[i].args[1], p[i].args[2..])
              && DecorationPlaced(p[i].args[0], p[i].args[1], Id(10), Id(8), Id(7), Id(11))
    ensures var p := Fixture();
            forall i | i in {6, 7, 11, 12} ::
              && |p[i].args| >= 3 && DecorationAllowed(p[i].args[2], p[i].args[3..])
              && MemberPlaced(p[i].args[0], p[i].args[1], p[i].args[2], Id(8), Id(11))
  {
  }

  lemma FixtureEntry()
    ensures Entry(Fixture()) && Interfaces(Fixture()) == []
  {
    hide Ops, Fixture, Annotations, Declarations;
    var p := Fixture();
    FixtureOps();
    FixtureArguments();
    FixtureShape(27);
    assert DefinesFunction(p, Id(15));
  }

  lemma FixtureVariables()
    ensures Fixture()[22] == Instr(Some(10), OpVariable, [Id(9), Sym(StorageBuffer)])
    ensures Fixture()[25] == Instr(Some(13), OpVariable, [Id(12), Sym(PushConstant)])
  {
    assert Fixture()[22] == Declarations()[9] && Fixture()[25] == Declarations()[12];
  }

  lemma FixtureResources()
    ensures EntryShape(Fixture()) && Resources(Fixture(), 0, 1, Id(8), Id(7), Id(11))
  {
    hide LayoutClosed, Ops, Globals, Defines, Decorates, MemberDecorates, Vector;
    hide Fixture, Annotations, Declarations;
    FixtureEntry();
    FixtureGlobals();
    FixtureVariables();
    FixtureAllowed();
    FixtureDecorations();
    FixtureDefinitions();
    FixtureVectors();
    assert Vec4Array(Fixture(), Id(7)) && PushMembers(Fixture(), Id(11));
  }

  /** The fixed ABI is not empty. */
  lemma FixtureHasFixedAbi()
    ensures FixedAbi(Fixture())
  {
    hide Fits, Preamble, Entry, DecorationsAllowed, ScalarsAllowed, Resources, InFunction;
    hide Fixture, Annotations, Declarations;
    var p := Fixture();
    forall i | 0 <= i < |p| ensures Fits(p, i) {
      FixtureFits(i);
    }
    FixtureClosed();
    FixtureOps();
    FixtureEntry();
    FixtureAllowed();
    FixtureResources();
  }

  lemma FixtureClosed()
    ensures !InFunction(Fixture())
  {
    hide Fixture, Annotations, Declarations;
    FixtureShape(28);
  }

  // ---------------------------------------------------------------- as a file

  /** `x` can be written in at most eight words. */
  predicate Short(x: Instr) {
    Encodable(x, 64) && |Operands(x)| < 8
  }

  predicate SmallId(n: nat) {
    0 < n < 64
  }

  lemma ShortPreamble(x: Instr)
    requires || x == Instr(None, OpCapability, [Sym(Shader)])
             || x == Instr(None, OpMemoryModel, [Sym(Logical), Sym(GLSL450)])
             || x == Instr(None, OpFunctionEnd, [])
    ensures Short(x)
  {
  }

  lemma ShortMode(x: Instr)
    requires x == Instr(None, OpExecutionMode, [Id(15), Sym(LocalSize), Num(2), Num(1), Num(1)])
    ensures Short(x)
  {
  }

  lemma ShortDecoration(x: Instr, id: nat, kind: Symbol, value: nat)
    requires SmallId(id) && kind in {ArrayStride, DescriptorSet, Binding, Block} && value < 64
    requires || x == Instr(None, OpDecorate, [Id(id), Sym(kind)])
             || x == Instr(None, OpDecorate, [Id(id), Sym(kind), Num(value)])
    ensures Short(x)
  {
    assert Suits(AnId, Id(id), 64) && Suits(ADecoration, Sym(kind), 64) && Suits(ANumber, Num(value), 64);
    hide Suits, WordFor, TokenFor;
  }

  lemma ShortMember(x: Instr, id: nat, index: nat, kind: Symbol, value: nat)
    requires SmallId(id) && index < 64 && kind in {Offset, NonReadable} && value < 64
    requires || x == Instr(None, OpMemberDecorate, [Id(id), Num(index), Sym(kind)])
             || x == Instr(None, OpMemberDecorate, [Id(id), Num(index), Sym(kind), Num(value)])
    ensures Short(x)
  {
  }

  lemma ShortScalar(x: Instr, id: nat)
    requires SmallId(id) && x.result == Some(id)
    requires || (x.op in {OpTypeVoid, OpTypeBool} && x.args == [])
             || (x.op == OpTypeInt && x.args == [Num(32), Num(0)]) || (x.op == OpTypeFloat && x.args == [Num(32)])
    ensures Short(x)
  {
  }

  lemma ShortVector(x: Instr, id: nat, element: nat)
    requires SmallId(id) && SmallId(element) && x == Instr(Some(id), OpTypeVector, [Id(element), Num(4)])
    ensures Short(x)
  {
  }

  lemma ShortComposite(x: Instr, id: nat, a: nat, b: nat)
    requires SmallId(id) && SmallId(a) && SmallId(b) && x.result == Some(id)
    requires || (x.op in {OpTypeRuntimeArray, OpTypeStruct, OpTypeFunction} && x.args == [Id(a)])
             || (x.op == OpTypeStruct && x.args == [Id(a), Id(b)])
    ensures Short(x)
  {
  }

  lemma ShortStored(x: Instr, id: nat, target: nat, storage: Symbol)
    requires SmallId(id) && SmallId(target) && storage in {StorageBuffer, PushConstant} && x.result == Some(id)
    requires || (x.op == OpTypePointer && x.args == [Sym(storage), Id(target)])
             || (x.op == OpVariable && x.args == [Id(target), Sym(storage)])
    ensures Short(x)
  {
  }

  lemma ShortFunction(x: Instr)
    requires x == Instr(Some(15), OpFunction, [Id(1), Num(0), Id(14)])
    ensures Short(x)
  {
  }

  lemma ShortEntry(x: Instr)
    requires x == Instr(None, OpEntryPoint, [Sym(GLCompute), Id(15), Text(MAIN)])
    ensures Short(x)
  {
    hide PackString;
    LiteralOfPackString(MAIN, []);
    assert x.args[..2] == [Sym(GLCompute), Id(15)] && x.args[3..] == [];
    assert Suits(AModel, Sym(GLCompute), 64) && Suits(AnId, Id(15), 64);
  }

  lemma ShortAnnotation(i: nat)
    requires i < 13
    ensures Short(Annotations()[i])
  {
    hide Short;
    var x := Annotations()[i];
    if i == 0 || i == 1 {
      ShortPreamble(x);
    } else if i == 2 {
      ShortEntry(x);
    } else if i == 3 {
      ShortMode(x);
    } else if i == 4 {
      ShortDecoration(x, 7, ArrayStride, 16);
    } else if i == 5 || i == 10 {
      ShortDecoration(x, if i == 5 then 8 else 11, Block, 0);
    } else if i == 6 || i == 7 {
      ShortMember(x, 8, 0, if i == 6 then Offset else NonReadable, 0);
    } else if i == 8 || i == 9 {
      ShortDecoration(x, 10, if i == 8 then DescriptorSet else Binding, 0);
    } else {
      ShortMember(x, 11, i - 11, Offset, 16 * (i - 11));
    }
  }

  lemma ShortDeclaration(i: nat)
    requires i < 16
    ensures Short(Declarations()[i])
  {
    hide Short;
    var x := Declarations()[i];
    if i < 4 {
      ShortScalar(x, i + 1);
    } else if i < 6 {
      ShortVector(x, i + 1, if i == 4 then 4 else 3);
    } else if i == 6 || i == 7 {
      ShortComposite(x, i + 1, if i == 6 then 5 else 7, 1);
    } else if i == 8 || i == 9 {
      ShortStored(x, i + 1, i, StorageBuffer);
    } else if i == 10 {
      ShortComposite(x, 11, 6, 5);
    } else if i == 11 || i == 12 {
      ShortStored(x, i + 1, i, PushConstant);
    } else if i == 13 {
      ShortComposite(x, 14, 1, 1);
    } else if i == 14 {
      ShortFunction(x);
    } else {
      ShortPreamble(x);
    }
  }

  lemma FixtureIsShort(i: nat)
    requires i < 29
    ensures Short(Fixture()[i])
  {
    hide Short;
    if i < 13 { ShortAnnotation(i); } else { ShortDeclaration(i - 13); }
  }

  lemma {:induction false} ShortSize(p: seq<Instr>)
    requires forall i | 0 <= i < |p| :: Short(p[i])
    ensures AllEncodable(p, 64) && |Encode(p, 64)| <= 8 * |p|
  {
    hide Encodable, Operands;
    if p != [] {
      ShortSize(p[1..]);
      assert Short(p[0]);
    }
  }

  /** The fixture as a file: `binary_contract` accepts it, so there are accepted files. */
  lemma FixtureIsAccepted()
    ensures AllEncodable(Fixture(), 64)
    ensures Contract(Pack(Header(64) + Encode(Fixture(), 64)))
  {
    hide Fixture, Annotations, Declarations, Short, FixedAbi, Contract, Encode;
    forall i | 0 <= i < |Fixture()| ensures Short(Fixture()[i]) {
      FixtureIsShort(i);
    }
    ShortSize(Fixture());
    FixtureHasFixedAbi();
    WrittenFileIsAcceptedIffFixedAbi(Fixture(), 64);
  }
}
