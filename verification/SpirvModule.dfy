/** Typed SPIR-V interface instructions and the one ABI a hot-loaded kernel may have. */
module SpirvModule {
  import opened Octets
  import opened Sequences

  datatype Symbol =
    | Shader | Logical | GLSL450 | GLCompute | LocalSize
    | Input | Private | Function | PushConstant | StorageBuffer
    | RelaxedPrecision | Block | ArrayStride | BuiltIn | Restrict | Aliased | Coherent | NonWritable | NonReadable
    | Binding | DescriptorSet | Offset | NoContraction
    | NumWorkgroups | WorkgroupSize | WorkgroupId | LocalInvocationId | GlobalInvocationId | LocalInvocationIndex

  datatype Token = Id(n: nat) | Num(n: nat) | Sym(s: Symbol) | Text(t: seq<Byte>)

  datatype Opcode =
    | OpExtension | OpExtInstImport | OpMemoryModel | OpEntryPoint | OpExecutionMode | OpCapability
    | OpTypeVoid | OpTypeBool | OpTypeInt | OpTypeFloat | OpTypeVector | OpTypeMatrix | OpTypeImage | OpTypeSampler
    | OpTypeSampledImage | OpTypeArray | OpTypeRuntimeArray | OpTypeStruct | OpTypeOpaque | OpTypePointer
    | OpTypeFunction | OpFunction | OpFunctionEnd | OpVariable | OpDecorate | OpMemberDecorate | OpDecorationGroup
    | OpGroupDecorate | OpGroupMemberDecorate | OpExecutionModeId | OpSpecConstant | OpOther(code: nat)

  datatype Instr = Instr(result: Option<nat>, op: Opcode, args: seq<Token>)

  const MAIN: seq<Byte> := [109, 97, 105, 110]
  const GLSL_STD_450: seq<Byte> := [71, 76, 83, 76, 46, 115, 116, 100, 46, 52, 53, 48]

  // ---------------------------------------------------------------- views of an instruction list

  /** Whether the end of `p` lies between an OpFunction and its OpFunctionEnd. */
  predicate InFunction(p: seq<Instr>) {
    p != [] && var last := p[|p| - 1];
    last.op.OpFunction? || (!last.op.OpFunctionEnd? && InFunction(p[..|p| - 1]))
  }

  /** The variables outside functions, in order. */
  function Globals(p: seq<Instr>): seq<Instr> {
    if p == [] then []
    else
      var init, last := p[..|p| - 1], p[|p| - 1];
      Globals(init) + if last.op.OpVariable? && !InFunction(init) then [last] else []
  }

  /** The operands of every `op`, in order. */
  function Ops(p: seq<Instr>, op: Opcode): seq<seq<Token>> {
    if p == [] then []
    else Ops(p[..|p| - 1], op) + if p[|p| - 1].op == op then [p[|p| - 1].args] else []
  }

  ghost predicate Defines(p: seq<Instr>, id: Token, op: Opcode, args: seq<Token>) {
    exists i :: 0 <= i < |p| && p[i].result.Some? && Id(p[i].result.value) == id && p[i].op == op && p[i].args == args
  }

  ghost predicate Decorates(p: seq<Instr>, target: Token, kind: Symbol, values: seq<Token>) {
    exists i :: 0 <= i < |p| && p[i].op.OpDecorate? && p[i].args == [target, Sym(kind)] + values
  }

  ghost predicate MemberDecorates(p: seq<Instr>, target: Token, index: nat, kind: Symbol, values: seq<Token>) {
    exists i :: 0 <= i < |p| && p[i].op.OpMemberDecorate? && p[i].args == [target, Num(index), Sym(kind)] + values
  }

  // ---------------------------------------------------------------- the fixed ABI, declaratively

  predicate SameKey(a: seq<Token>, b: seq<Token>, n: nat) {
    n <= |a| && n <= |b| && a[..n] == b[..n]
  }

  /** Instruction `i` repeats no result or decoration key of an earlier one and fits its place. */
  predicate Fits(p: seq<Instr>, i: nat)
    requires i < |p|
  {
    var x := p[i];
    && (x.result.Some? ==> forall j :: 0 <= j < i ==> p[j].result != x.result)
    && match x.op
       case OpFunction => !InFunction(p[..i])
       case OpFunctionEnd => InFunction(p[..i])
       case OpVariable => 2 <= |x.args| <= 3 && (InFunction(p[..i]) ==> x.args[1] == Sym(Function))
       case OpDecorate =>
         2 <= |x.args| && forall j :: 0 <= j < i && p[j].op.OpDecorate? ==> !SameKey(p[j].args, x.args, 2)
       case OpMemberDecorate =>
         3 <= |x.args| && forall j :: 0 <= j < i && p[j].op.OpMemberDecorate? ==> !SameKey(p[j].args, x.args, 3)
       case _ => true
  }

  predicate Collectible(p: seq<Instr>) {
    (forall i :: 0 <= i < |p| ==> Fits(p, i)) && !InFunction(p)
  }

  predicate Forbidden(op: Opcode) {
    || op.OpExtension? || op.OpDecorationGroup? || op.OpGroupDecorate? || op.OpGroupMemberDecorate?
    || op.OpExecutionModeId? || op.OpTypeImage? || op.OpTypeSampler? || op.OpTypeSampledImage?
    || op.OpTypeOpaque? || op.OpSpecConstant?
  }

  /** Shader capability, Logical/GLSL450 memory model, at most the standard import, nothing unsupported. */
  predicate Preamble(p: seq<Instr>) {
    && Ops(p, OpCapability) == [[Sym(Shader)]]
    && Ops(p, OpMemoryModel) == [[Sym(Logical), Sym(GLSL450)]]
    && (Ops(p, OpExtInstImport) == [] || Ops(p, OpExtInstImport) == [[Text(GLSL_STD_450)]])
    && forall i :: 0 <= i < |p| ==> !Forbidden(p[i].op)
  }

  predicate EntryShape(p: seq<Instr>) {
    var e := Ops(p, OpEntryPoint);
    |e| == 1 && |e[0]| >= 3 && e[0][0] == Sym(GLCompute) && e[0][2] == Text(MAIN)
  }

  function EntryId(p: seq<Instr>): Token
    requires EntryShape(p)
  {
    Ops(p, OpEntryPoint)[0][1]
  }

  function Interfaces(p: seq<Instr>): seq<Token>
    requires EntryShape(p)
  {
    Ops(p, OpEntryPoint)[0][3..]
  }

  predicate EntryMode(p: seq<Instr>)
    requires EntryShape(p)
  {
    && Ops(p, OpExecutionMode) == [[EntryId(p), Sym(LocalSize), Num(2), Num(1), Num(1)]]
    && Distinct(Interfaces(p))
  }

  ghost predicate DefinesFunction(p: seq<Instr>, id: Token) {
    exists i :: 0 <= i < |p| && p[i].result.Some? && Id(p[i].result.value) == id && p[i].op.OpFunction?
  }

  /** One GLCompute entry point "main" with local size 2 1 1. */
  ghost predicate Entry(p: seq<Instr>) {
    EntryShape(p) && DefinesFunction(p, EntryId(p)) && EntryMode(p)
  }

  predicate FlagDecoration(k: Symbol) {
    k in {RelaxedPrecision, Block, Restrict, Aliased, Coherent, NonWritable, NonReadable, NoContraction}
  }

  predicate ValueDecoration(k: Symbol) {
    k in {ArrayStride, BuiltIn, Binding, DescriptorSet, Offset}
  }

  predicate DecorationAllowed(kind: Token, values: seq<Token>) {
    kind.Sym? && ((FlagDecoration(kind.s) && values == []) || (ValueDecoration(kind.s) && |values| == 1))
  }

  predicate DecorationsAllowed(p: seq<Instr>) {
    forall i :: 0 <= i < |p| ==>
      && (p[i].op.OpDecorate? ==> 2 <= |p[i].args| && DecorationAllowed(p[i].args[1], p[i].args[2..]))
      && (p[i].op.OpMemberDecorate? ==> 3 <= |p[i].args| && DecorationAllowed(p[i].args[2], p[i].args[3..]))
  }

  predicate ScalarsAllowed(p: seq<Instr>) {
    forall i :: 0 <= i < |p| ==>
      && (p[i].op.OpTypeInt? ==> p[i].args == [Num(32), Num(0)] || p[i].args == [Num(32), Num(1)])
      && (p[i].op.OpTypeFloat? ==> p[i].args == [Num(32)])
  }

  ghost predicate Scalar(p: seq<Instr>, id: Token, unsigned: bool) {
    if unsigned then Defines(p, id, OpTypeInt, [Num(32), Num(0)]) else Defines(p, id, OpTypeFloat, [Num(32)])
  }

  ghost predicate Vector(p: seq<Instr>, id: Token, unsigned: bool, width: nat) {
    exists scalar :: Defines(p, id, OpTypeVector, [scalar, Num(width)]) && Scalar(p, scalar, unsigned)
  }

  predicate Stored(g: Instr, storage: Symbol) {
    |g.args| >= 2 && g.args[1] == Sym(storage)
  }

  ghost predicate Points(p: seq<Instr>, g: Instr, storage: Symbol, target: Token) {
    Stored(g, storage) && Defines(p, g.args[0], OpTypePointer, [Sym(storage), target])
  }

  ghost predicate Vec4Array(p: seq<Instr>, elements: Token) {
    && Decorates(p, elements, ArrayStride, [Num(16)])
    && exists v :: Defines(p, elements, OpTypeRuntimeArray, [v]) && Vector(p, v, false, 4)
  }

  /** `g` is the output: set 0, binding 0, a write-only block holding one stride-16 runtime array of f32 vec4. */
  ghost predicate OutputAt(p: seq<Instr>, g: Instr, struct: Token, elements: Token) {
    && g.result.Some? && |g.args| == 2 && Points(p, g, StorageBuffer, struct)
    && Decorates(p, Id(g.result.value), DescriptorSet, [Num(0)])
    && Decorates(p, Id(g.result.value), Binding, [Num(0)])
    && Decorates(p, struct, Block, [])
    && MemberDecorates(p, struct, 0, Offset, [Num(0)])
    && MemberDecorates(p, struct, 0, NonReadable, [])
    && Defines(p, struct, OpTypeStruct, [elements])
    && Vec4Array(p, elements)
  }

  ghost predicate PushMembers(p: seq<Instr>, struct: Token) {
    exists a, b :: Defines(p, struct, OpTypeStruct, [a, b]) && Vector(p, a, true, 4) && Vector(p, b, false, 4)
  }

  /** `g` is the push block: u32 vec4 at offset 0 and f32 vec4 at offset 16. */
  ghost predicate PushAt(p: seq<Instr>, g: Instr, struct: Token) {
    && |g.args| == 2 && Points(p, g, PushConstant, struct)
    && Decorates(p, struct, Block, [])
    && MemberDecorates(p, struct, 0, Offset, [Num(0)])
    && MemberDecorates(p, struct, 1, Offset, [Num(16)])
    && PushMembers(p, struct)
  }

  predicate VectorBuiltin(b: Symbol) {
    b in {NumWorkgroups, WorkgroupId, LocalInvocationId, GlobalInvocationId}
  }

  /** The builtin that decorates an input agrees with its type. */
  ghost predicate InputTyped(p: seq<Instr>, name: Token, typ: Token) {
    || (Decorates(p, name, BuiltIn, [Sym(LocalInvocationIndex)]) && Scalar(p, typ, true))
    || ((exists b :: VectorBuiltin(b) && Decorates(p, name, BuiltIn, [Sym(b)])) && Vector(p, typ, true, 3))
  }

  ghost predicate InputAt(p: seq<Instr>, g: Instr) {
    && g.result.Some? && |g.args| == 2
    && exists t :: Points(p, g, Input, t) && InputTyped(p, Id(g.result.value), t)
  }

  ghost predicate PrivateAt(p: seq<Instr>, g: Instr) {
    exists t :: Points(p, g, Private, t)
  }

  /** No descriptor, block, stride or offset decoration beyond those of the output and the push block. */
  predicate LayoutClosed(p: seq<Instr>, output: Token, struct: Token, elements: Token, push: Token) {
    && (forall i :: 0 <= i < |p| && p[i].op.OpDecorate? && |p[i].args| >= 2 ==>
          DecorationPlaced(p[i].args[0], p[i].args[1], output, struct, elements, push))
    && (forall i :: 0 <= i < |p| && p[i].op.OpMemberDecorate? && |p[i].args| >= 3 ==>
          MemberPlaced(p[i].args[0], p[i].args[1], p[i].args[2], struct, push))
  }

  predicate DecorationPlaced(target: Token, kind: Token, output: Token, struct: Token, elements: Token, push: Token) {
    && (kind == Sym(DescriptorSet) || kind == Sym(Binding) ==> target == output)
    && (kind == Sym(Block) ==> target == struct || target == push)
    && (kind == Sym(ArrayStride) ==> target == elements)
    && kind != Sym(Offset)
  }

  predicate MemberPlaced(target: Token, index: Token, kind: Token, struct: Token, push: Token) {
    && kind != Sym(DescriptorSet) && kind != Sym(Binding) && kind != Sym(Block) && kind != Sym(ArrayStride)
    && (kind == Sym(Offset) ==>
          (target == struct && index == Num(0)) || (target == push && (index == Num(0) || index == Num(1))))
  }

  /** The names of the input variables are exactly the entry point's interfaces. */
  predicate InputsAre(globals: seq<Instr>, interfaces: seq<Token>) {
    && (forall k :: 0 <= k < |globals| && Stored(globals[k], Input) ==>
          globals[k].result.Some? && Id(globals[k].result.value) in interfaces)
    && (forall x :: x in interfaces ==>
          exists k :: 0 <= k < |globals| && Stored(globals[k], Input) && globals[k].result.Some?
                      && Id(globals[k].result.value) == x)
  }

  /** Global `o` is the only output, global `u` the only push block, every other global an input or private. */
  ghost predicate Resources(p: seq<Instr>, o: nat, u: nat, struct: Token, elements: Token, push: Token)
    requires EntryShape(p)
  {
    var g := Globals(p);
    && o < |g| && u < |g| && OutputAt(p, g[o], struct, elements) && PushAt(p, g[u], push)
    && (forall k :: 0 <= k < |g| && k != o && k != u ==> InputAt(p, g[k]) || PrivateAt(p, g[k]))
    && InputsAre(g, Interfaces(p))
    && LayoutClosed(p, Id(g[o].result.value), struct, elements, push)
  }

  /** The fixed ABI of an external hot-load kernel. */
  ghost predicate FixedAbi(p: seq<Instr>) {
    && Collectible(p) && Preamble(p) && Entry(p) && DecorationsAllowed(p) && ScalarsAllowed(p)
    && exists o: nat, u: nat, struct, elements, push :: Resources(p, o, u, struct, elements, push)
  }

  // ---------------------------------------------------------------- the binding word

  predicate IsBinding(x: Instr) {
    x.op.OpDecorate? && |x.args| == 3 && x.args[1] == Sym(Binding) && x.args[2].Num?
  }

  /** The operands of the Binding decorations, in order. */
  function BindingValues(p: seq<Instr>): seq<nat> {
    if p == [] then [] else (if IsBinding(p[0]) then [p[0].args[2].n] else []) + BindingValues(p[1..])
  }

  lemma {:induction false} NoBindingValues(p: seq<Instr>)
    requires forall i :: 0 <= i < |p| ==> !IsBinding(p[i])
    ensures BindingValues(p) == []
  {
    if p != [] {
      NoBindingValues(p[1..]);
    }
  }

  lemma {:induction false} OnlyBindingValue(p: seq<Instr>, b: nat)
    requires b < |p| && IsBinding(p[b]) && forall i :: 0 <= i < |p| && IsBinding(p[i]) ==> i == b
    ensures BindingValues(p) == [p[b].args[2].n]
  {
    if b == 0 {
      NoBindingValues(p[1..]);
    } else {
      assert p[1..][b - 1] == p[b];
      OnlyBindingValue(p[1..], b - 1);
    }
  }

  lemma UniqueDecoration(p: seq<Instr>, i: nat, j: nat)
    requires i < |p| && j < |p| && Fits(p, i) && Fits(p, j)
    requires p[i].op.OpDecorate? && p[j].op.OpDecorate? && SameKey(p[i].args, p[j].args, 2)
    ensures i == j
  {
    assert SameKey(p[j].args, p[i].args, 2);
  }

  lemma OneBinding(p: seq<Instr>, b: nat, out: Token)
    requires forall i :: 0 <= i < |p| ==> Fits(p, i)
    requires b < |p| && p[b].op.OpDecorate? && p[b].args == [out, Sym(Binding), Num(0)]
    requires forall i :: 0 <= i < |p| && IsBinding(p[i]) ==> p[i].args[0] == out
    ensures BindingValues(p) == [0]
  {
    forall i | 0 <= i < |p| && IsBinding(p[i]) ensures i == b {
      assert p[i].args[..2] == [out, Sym(Binding)] == p[b].args[..2];
      UniqueDecoration(p, i, b);
    }
    OnlyBindingValue(p, b);
  }

  lemma ClosedLayoutPlacesBindings(
    p: seq<Instr>, output: Token, struct: Token, elements: Token, push: Token, i: nat)
    requires LayoutClosed(p, output, struct, elements, push) && i < |p| && IsBinding(p[i])
    ensures p[i].args[0] == output
  {
    assert DecorationPlaced(p[i].args[0], p[i].args[1], output, struct, elements, push);
  }

  lemma OutputIsBound(p: seq<Instr>, g: Instr, struct: Token, elements: Token)
    requires OutputAt(p, g, struct, elements)
    ensures exists b :: 0 <= b < |p| && p[b].op.OpDecorate? && p[b].args == [Id(g.result.value), Sym(Binding), Num(0)]
  {
    var out := Id(g.result.value);
    assert Decorates(p, out, Binding, [Num(0)]);
    var b :| 0 <= b < |p| && p[b].op.OpDecorate? && p[b].args == [out, Sym(Binding)] + [Num(0)];
    assert p[b].args == [out, Sym(Binding), Num(0)];
  }

  lemma ResourcesHaveOneBinding(p: seq<Instr>, o: nat, u: nat, struct: Token, elements: Token, push: Token)
    requires Collectible(p) && EntryShape(p) && Resources(p, o, u, struct, elements, push)
    ensures BindingValues(p) == [0]
  {
    var g := Globals(p)[o];
    var out := Id(g.result.value);
    OutputIsBound(p, g, struct, elements);
    var b :| 0 <= b < |p| && p[b].op.OpDecorate? && p[b].args == [out, Sym(Binding), Num(0)];
    forall i | 0 <= i < |p| && IsBinding(p[i]) ensures p[i].args[0] == out {
      ClosedLayoutPlacesBindings(p, out, struct, elements, push, i);
    }
    OneBinding(p, b, out);
  }

  /** A module with the fixed ABI has exactly one Binding decoration, and its operand is 0. */
  lemma FixedAbiHasOneBinding(p: seq<Instr>)
    requires FixedAbi(p)
    ensures BindingValues(p) == [0]
  {
    var o: nat, u: nat, struct, elements, push :| Resources(p, o, u, struct, elements, push);
    ResourcesHaveOneBinding(p, o, u, struct, elements, push);
  }
}
