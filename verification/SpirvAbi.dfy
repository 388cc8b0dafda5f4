/**
 * The fixed ABI once more, with every opcode, symbol and number written out, and nothing shared with
 * the predicates that the reflection is proved against.
 */
module SpirvAbi {
  import opened SpirvModule

  /** The ids that make up the interface of a kernel. */
  datatype Kernel = Kernel(
    main: Token, interfaces: seq<Token>,
    output: Instr, outputStruct: Token, elements: Token, vec4: Token, f32: Token,
    push: Instr, pushStruct: Token, uvec4: Token, u32: Token, pushVec4: Token, pushF32: Token)

  ghost predicate Says(p: seq<Instr>, op: Opcode, args: seq<Token>) {
    exists i :: 0 <= i < |p| && p[i].op == op && p[i].args == args
  }

  ghost predicate Makes(p: seq<Instr>, id: Token, op: Opcode, args: seq<Token>) {
    exists i :: 0 <= i < |p| && p[i].result.Some? && Id(p[i].result.value) == id && p[i].op == op && p[i].args == args
  }

  /** One capability, one memory model, at most one import, one entry point and one execution mode. */
  predicate Opening(p: seq<Instr>, k: Kernel) {
    && Ops(p, OpCapability) == [[Sym(Shader)]]
    && Ops(p, OpMemoryModel) == [[Sym(Logical), Sym(GLSL450)]]
    && (|| Ops(p, OpExtInstImport) == []
        || Ops(p, OpExtInstImport) == [[Text([71, 76, 83, 76, 46, 115, 116, 100, 46, 52, 53, 48])]])
    && Ops(p, OpEntryPoint) == [[Sym(GLCompute), k.main, Text([109, 97, 105, 110])] + k.interfaces]
    && Ops(p, OpExecutionMode) == [[k.main, Sym(LocalSize), Num(2), Num(1), Num(1)]]
    && (forall i, j :: 0 <= i < j < |k.interfaces| ==> k.interfaces[i] != k.interfaces[j])
  }

  predicate Banned(op: Opcode) {
    match op
    case OpExtension | OpDecorationGroup | OpGroupDecorate | OpGroupMemberDecorate | OpExecutionModeId => true
    case OpTypeImage | OpTypeSampler | OpTypeSampledImage | OpTypeOpaque | OpSpecConstant => true
    case _ => false
  }

  /** What a decoration may be called, and whether it takes a value. */
  predicate Decorating(kind: Token, values: seq<Token>) {
    kind.Sym? &&
    match kind.s
    case RelaxedPrecision | Block | Restrict | Aliased | Coherent | NonWritable | NonReadable | NoContraction => |values| == 0
    case ArrayStride | BuiltIn | Binding | DescriptorSet | Offset => |values| == 1
    case _ => false
  }

  /** The layout decorations and where they belong. */
  predicate InPlace(args: seq<Token>, k: Kernel)
    requires |args| >= 2 && k.output.result.Some?
  {
    match args[1]
    case Sym(DescriptorSet) => args[0] == Id(k.output.result.value)
    case Sym(Binding) => args[0] == Id(k.output.result.value)
    case Sym(Block) => args[0] == k.outputStruct || args[0] == k.pushStruct
    case Sym(ArrayStride) => args[0] == k.elements
    case Sym(Offset) => false
    case _ => true
  }

  predicate MemberInPlace(args: seq<Token>, k: Kernel)
    requires |args| >= 3
  {
    match args[2]
    case Sym(DescriptorSet) => false
    case Sym(Binding) => false
    case Sym(Block) => false
    case Sym(ArrayStride) => false
    case Sym(Offset) =>
      || args[..2] == [k.outputStruct, Num(0)] || args[..2] == [k.pushStruct, Num(0)]
      || args[..2] == [k.pushStruct, Num(1)]
    case _ => true
  }

  /** What each instruction may be, taken alone. */
  predicate Permitted(x: Instr, k: Kernel)
    requires k.output.result.Some?
  {
    && !Banned(x.op)
    && (x.op.OpTypeInt? ==> x.args == [Num(32), Num(0)] || x.args == [Num(32), Num(1)])
    && (x.op.OpTypeFloat? ==> x.args == [Num(32)])
    && (x.op.OpDecorate? ==> |x.args| >= 2 && Decorating(x.args[1], x.args[2..]) && InPlace(x.args, k))
    && (x.op.OpMemberDecorate? ==> |x.args| >= 3 && Decorating(x.args[2], x.args[3..]) && MemberInPlace(x.args, k))
  }

  /** The output block at set 0, binding 0: one stride-16 runtime array of four floats, not readable. */
  ghost predicate OutputBlock(p: seq<Instr>, k: Kernel) {
    && k.output.result.Some? && |k.output.args| == 2 && k.output.args[1] == Sym(StorageBuffer)
    && Makes(p, k.output.args[0], OpTypePointer, [Sym(StorageBuffer), k.outputStruct])
    && Makes(p, k.outputStruct, OpTypeStruct, [k.elements])
    && Makes(p, k.elements, OpTypeRuntimeArray, [k.vec4])
    && Makes(p, k.vec4, OpTypeVector, [k.f32, Num(4)])
    && Makes(p, k.f32, OpTypeFloat, [Num(32)])
    && Says(p, OpDecorate, [Id(k.output.result.value), Sym(DescriptorSet), Num(0)])
    && Says(p, OpDecorate, [Id(k.output.result.value), Sym(Binding), Num(0)])
    && Says(p, OpDecorate, [k.outputStruct, Sym(Block)])
    && Says(p, OpMemberDecorate, [k.outputStruct, Num(0), Sym(Offset), Num(0)])
    && Says(p, OpMemberDecorate, [k.outputStruct, Num(0), Sym(NonReadable)])
    && Says(p, OpDecorate, [k.elements, Sym(ArrayStride), Num(16)])
  }

  /** The push block: four unsigned integers at offset 0 and four floats at offset 16. */
  ghost predicate PushBlock(p: seq<Instr>, k: Kernel) {
    && |k.push.args| == 2 && k.push.args[1] == Sym(PushConstant)
    && Makes(p, k.push.args[0], OpTypePointer, [Sym(PushConstant), k.pushStruct])
    && Makes(p, k.pushStruct, OpTypeStruct, [k.uvec4, k.pushVec4])
    && Makes(p, k.uvec4, OpTypeVector, [k.u32, Num(4)])
    && Makes(p, k.u32, OpTypeInt, [Num(32), Num(0)])
    && Makes(p, k.pushVec4, OpTypeVector, [k.pushF32, Num(4)])
    && Makes(p, k.pushF32, OpTypeFloat, [Num(32)])
    && Says(p, OpDecorate, [k.pushStruct, Sym(Block)])
    && Says(p, OpMemberDecorate, [k.pushStruct, Num(0), Sym(Offset), Num(0)])
    && Says(p, OpMemberDecorate, [k.pushStruct, Num(1), Sym(Offset), Num(16)])
  }

  predicate ThreeWide(b: Symbol) {
    b == NumWorkgroups || b == WorkgroupId || b == LocalInvocationId || b == GlobalInvocationId
  }

  /** An input is the local invocation index, or one of the builtins of three unsigned integers. */
  ghost predicate BuiltinInput(p: seq<Instr>, g: Instr) {
    && g.result.Some? && |g.args| == 2 && g.args[1] == Sym(Input)
    && exists t :: InputPointer(p, g, t) && (IndexInput(p, g, t) || exists b, u :: WideInput(p, g, t, b, u))
  }

  ghost predicate InputPointer(p: seq<Instr>, g: Instr, t: Token)
    requires |g.args| == 2
  {
    Makes(p, g.args[0], OpTypePointer, [Sym(Input), t])
  }

  ghost predicate IndexInput(p: seq<Instr>, g: Instr, t: Token)
    requires g.result.Some?
  {
    && Says(p, OpDecorate, [Id(g.result.value), Sym(BuiltIn), Sym(LocalInvocationIndex)])
    && Makes(p, t, OpTypeInt, [Num(32), Num(0)])
  }

  ghost predicate WideInput(p: seq<Instr>, g: Instr, t: Token, b: Symbol, u: Token)
    requires g.result.Some?
  {
    && ThreeWide(b) && Says(p, OpDecorate, [Id(g.result.value), Sym(BuiltIn), Sym(b)])
    && Makes(p, t, OpTypeVector, [u, Num(3)]) && Makes(p, u, OpTypeInt, [Num(32), Num(0)])
  }

  ghost predicate PrivateVariable(p: seq<Instr>, g: Instr) {
    |g.args| >= 2 && g.args[1] == Sym(Private) && exists t :: Makes(p, g.args[0], OpTypePointer, [Sym(Private), t])
  }

  /** One output, one push block, and otherwise inputs, which are the interfaces, and private variables. */
  ghost predicate OnlyTheseGlobals(p: seq<Instr>, k: Kernel, o: nat, u: nat) {
    var g := Globals(p);
    && o < |g| && u < |g| && g[o] == k.output && g[u] == k.push
    && (forall i :: 0 <= i < |g| && i != o && i != u ==> BuiltinInput(p, g[i]) || PrivateVariable(p, g[i]))
    && (forall i :: 0 <= i < |g| && |g[i].args| >= 2 && g[i].args[1] == Sym(Input) ==>
          g[i].result.Some? && Id(g[i].result.value) in k.interfaces)
    && (forall x :: x in k.interfaces ==>
          exists i :: 0 <= i < |g| && |g[i].args| >= 2 && g[i].args[1] == Sym(Input) && g[i].result.Some?
                      && Id(g[i].result.value) == x)
  }

  ghost predicate IsKernel(p: seq<Instr>, k: Kernel, o: nat, u: nat) {
    && Opening(p, k) && (exists i :: 0 <= i < |p| && p[i].op.OpFunction? && p[i].result.Some? && Id(p[i].result.value) == k.main)
    && OutputBlock(p, k) && PushBlock(p, k) && OnlyTheseGlobals(p, k, o, u)
    && forall i :: 0 <= i < |p| ==> Permitted(p[i], k)
  }

  // ---------------------------------------------------------------- the same as the fixed ABI

  lemma SaysFlag(p: seq<Instr>, target: Token, kind: Symbol)
    ensures Says(p, OpDecorate, [target, Sym(kind)]) <==> Decorates(p, target, kind, [])
  {
    assert [target, Sym(kind)] + [] == [target, Sym(kind)];
  }

  lemma SaysValue(p: seq<Instr>, target: Token, kind: Symbol, value: Token)
    ensures Says(p, OpDecorate, [target, Sym(kind), value]) <==> Decorates(p, target, kind, [value])
  {
    assert [target, Sym(kind)] + [value] == [target, Sym(kind), value];
  }

  lemma MemberSaysFlag(p: seq<Instr>, target: Token, index: nat, kind: Symbol)
    ensures Says(p, OpMemberDecorate, [target, Num(index), Sym(kind)]) <==> MemberDecorates(p, target, index, kind, [])
  {
    assert [target, Num(index), Sym(kind)] + [] == [target, Num(index), Sym(kind)];
  }

  lemma MemberSaysValue(p: seq<Instr>, target: Token, index: nat, kind: Symbol, value: Token)
    ensures Says(p, OpMemberDecorate, [target, Num(index), Sym(kind), value]) <==>
            MemberDecorates(p, target, index, kind, [value])
  {
    assert [target, Num(index), Sym(kind)] + [value] == [target, Num(index), Sym(kind), value];
  }

  lemma MakesAt(p: seq<Instr>, id: Token, op: Opcode, args: seq<Token>)
    ensures Makes(p, id, op, args) <==> Defines(p, id, op, args)
  {
  }

  lemma DecoratingIff(kind: Token, values: seq<Token>)
    ensures Decorating(kind, values) <==> DecorationAllowed(kind, values)
  {
  }

  lemma BannedIff(op: Opcode)
    ensures Banned(op) <==> Forbidden(op)
  {
  }

  lemma InPlaceIff(args: seq<Token>, k: Kernel)
    requires |args| >= 2 && k.output.result.Some?
    ensures InPlace(args, k) <==>
            DecorationPlaced(args[0], args[1], Id(k.output.result.value), k.outputStruct, k.elements, k.pushStruct)
  {
  }

  lemma MemberInPlaceIff(args: seq<Token>, k: Kernel)
    requires |args| >= 3
    ensures MemberInPlace(args, k) <==> MemberPlaced(args[0], args[1], args[2], k.outputStruct, k.pushStruct)
  {
    assert args[..2] == [args[0], args[1]];
  }

  /** Instruction by instruction. */
  lemma PermittedIff(p: seq<Instr>, k: Kernel)
    requires k.output.result.Some?
    ensures (forall i :: 0 <= i < |p| ==> Permitted(p[i], k)) <==>
            && (forall i :: 0 <= i < |p| ==> !Forbidden(p[i].op)) && DecorationsAllowed(p) && ScalarsAllowed(p)
            && LayoutClosed(p, Id(k.output.result.value), k.outputStruct, k.elements, k.pushStruct)
  {
    hide Decorating, DecorationAllowed, InPlace, DecorationPlaced, MemberInPlace, MemberPlaced, Banned, Forbidden;
    forall i | 0 <= i < |p|
      ensures Banned(p[i].op) <==> Forbidden(p[i].op)
      ensures |p[i].args| >= 2 ==>
                && (Decorating(p[i].args[1], p[i].args[2..]) <==> DecorationAllowed(p[i].args[1], p[i].args[2..]))
                && (InPlace(p[i].args, k) <==>
                    DecorationPlaced(p[i].args[0], p[i].args[1], Id(k.output.result.value), k.outputStruct, k.elements,
                                     k.pushStruct))
      ensures |p[i].args| >= 3 ==>
                && (Decorating(p[i].args[2], p[i].args[3..]) <==> DecorationAllowed(p[i].args[2], p[i].args[3..]))
                && (MemberInPlace(p[i].args, k) <==>
                    MemberPlaced(p[i].args[0], p[i].args[1], p[i].args[2], k.outputStruct, k.pushStruct))
    {
      BannedIff(p[i].op);
      if |p[i].args| >= 2 {
        DecoratingIff(p[i].args[1], p[i].args[2..]);
        InPlaceIff(p[i].args, k);
      }
      if |p[i].args| >= 3 {
        DecoratingIff(p[i].args[2], p[i].args[3..]);
        MemberInPlaceIff(p[i].args, k);
      }
    }
  }

  lemma OutputIff(p: seq<Instr>, k: Kernel)
    requires k.output.result.Some?
    requires Makes(p, k.elements, OpTypeRuntimeArray, [k.vec4]) && Makes(p, k.vec4, OpTypeVector, [k.f32, Num(4)])
    requires Makes(p, k.f32, OpTypeFloat, [Num(32)])
    ensures OutputBlock(p, k) <==> OutputAt(p, k.output, k.outputStruct, k.elements)
  {
    hide Says, Decorates, MemberDecorates, Makes, Defines;
    var out := Id(k.output.result.value);
    SaysValue(p, out, DescriptorSet, Num(0));
    SaysValue(p, out, Binding, Num(0));
    SaysFlag(p, k.outputStruct, Block);
    SaysValue(p, k.elements, ArrayStride, Num(16));
    MemberSaysValue(p, k.outputStruct, 0, Offset, Num(0));
    MemberSaysFlag(p, k.outputStruct, 0, NonReadable);
    MakesAt(p, k.elements, OpTypeRuntimeArray, [k.vec4]);
    MakesAt(p, k.vec4, OpTypeVector, [k.f32, Num(4)]);
    MakesAt(p, k.f32, OpTypeFloat, [Num(32)]);
    MakesAt(p, k.outputStruct, OpTypeStruct, [k.elements]);
    if |k.output.args| >= 1 {
      MakesAt(p, k.output.args[0], OpTypePointer, [Sym(StorageBuffer), k.outputStruct]);
    }
    assert Scalar(p, k.f32, false);
    assert Vector(p, k.vec4, false, 4);
    assert Vec4Array(p, k.elements) <==> Decorates(p, k.elements, ArrayStride, [Num(16)]);
  }

  lemma PushIff(p: seq<Instr>, k: Kernel)
    requires Makes(p, k.pushStruct, OpTypeStruct, [k.uvec4, k.pushVec4])
    requires Makes(p, k.uvec4, OpTypeVector, [k.u32, Num(4)]) && Makes(p, k.u32, OpTypeInt, [Num(32), Num(0)])
    requires Makes(p, k.pushVec4, OpTypeVector, [k.pushF32, Num(4)]) && Makes(p, k.pushF32, OpTypeFloat, [Num(32)])
    ensures PushBlock(p, k) <==> PushAt(p, k.push, k.pushStruct)
  {
    hide Says, Decorates, MemberDecorates, Makes, Defines;
    SaysFlag(p, k.pushStruct, Block);
    MemberSaysValue(p, k.pushStruct, 0, Offset, Num(0));
    MemberSaysValue(p, k.pushStruct, 1, Offset, Num(16));
    MakesAt(p, k.pushStruct, OpTypeStruct, [k.uvec4, k.pushVec4]);
    MakesAt(p, k.uvec4, OpTypeVector, [k.u32, Num(4)]);
    MakesAt(p, k.u32, OpTypeInt, [Num(32), Num(0)]);
    MakesAt(p, k.pushVec4, OpTypeVector, [k.pushF32, Num(4)]);
    MakesAt(p, k.pushF32, OpTypeFloat, [Num(32)]);
    if |k.push.args| >= 1 {
      MakesAt(p, k.push.args[0], OpTypePointer, [Sym(PushConstant), k.pushStruct]);
    }
    assert Scalar(p, k.u32, true) && Scalar(p, k.pushF32, false);
    assert Vector(p, k.uvec4, true, 4) && Vector(p, k.pushVec4, false, 4);
    assert PushMembers(p, k.pushStruct);
  }

  lemma MakesIff(p: seq<Instr>)
    ensures forall id, op, args :: Makes(p, id, op, args) <==> Defines(p, id, op, args)
  {
  }

  lemma InputIff(p: seq<Instr>, g: Instr)
    ensures BuiltinInput(p, g) <==> InputAt(p, g)
  {
    hide Says, Decorates;
    MakesIff(p);
    hide Makes, Defines;
    if g.result.Some? && |g.args| == 2 {
      var name := Id(g.result.value);
      forall b ensures Says(p, OpDecorate, [name, Sym(BuiltIn), Sym(b)]) <==> Decorates(p, name, BuiltIn, [Sym(b)]) {
        SaysValue(p, name, BuiltIn, Sym(b));
      }
      forall t ensures (IndexInput(p, g, t) || exists b, u :: WideInput(p, g, t, b, u)) <==> InputTyped(p, name, t) {
        TypedIff(p, g, t);
      }
      forall t ensures InputPointer(p, g, t) && Stored(g, Input) <==> Points(p, g, Input, t) {}
    }
  }

  lemma TypedIff(p: seq<Instr>, g: Instr, t: Token)
    requires g.result.Some?
    requires forall b :: Says(p, OpDecorate, [Id(g.result.value), Sym(BuiltIn), Sym(b)]) <==>
                         Decorates(p, Id(g.result.value), BuiltIn, [Sym(b)])
    requires forall id, op, args :: Makes(p, id, op, args) <==> Defines(p, id, op, args)
    ensures (IndexInput(p, g, t) || exists b, u :: WideInput(p, g, t, b, u)) <==> InputTyped(p, Id(g.result.value), t)
  {
    hide Says, Decorates, Makes, Defines;
    var name := Id(g.result.value);
    if InputTyped(p, name, t) && !IndexInput(p, g, t) {
      var b :| VectorBuiltin(b) && Decorates(p, name, BuiltIn, [Sym(b)]);
      var u :| Defines(p, t, OpTypeVector, [u, Num(3)]) && Scalar(p, u, true);
      assert WideInput(p, g, t, b, u);
    }
    if b, u :| WideInput(p, g, t, b, u) {
      assert VectorBuiltin(b) && Scalar(p, u, true);
    }
  }

  lemma PrivateIff(p: seq<Instr>, g: Instr)
    ensures PrivateVariable(p, g) <==> PrivateAt(p, g)
  {
    MakesIff(p);
    hide Makes, Defines;
    if |g.args| >= 2 {
      forall t
        ensures Makes(p, g.args[0], OpTypePointer, [Sym(Private), t]) && Stored(g, Private) <==> Points(p, g, Private, t)
      {}
    }
  }

  lemma GlobalsIff(p: seq<Instr>, k: Kernel, o: nat, u: nat)
    requires EntryShape(p) && Interfaces(p) == k.interfaces
    ensures OnlyTheseGlobals(p, k, o, u) <==>
            var g := Globals(p);
            && o < |g| && u < |g| && g[o] == k.output && g[u] == k.push
            && (forall i :: 0 <= i < |g| && i != o && i != u ==> InputAt(p, g[i]) || PrivateAt(p, g[i]))
            && InputsAre(g, Interfaces(p))
  {
    hide BuiltinInput, PrivateVariable, InputAt, PrivateAt, Globals, EntryShape, Interfaces;
    forall i | 0 <= i < |Globals(p)|
      ensures BuiltinInput(p, Globals(p)[i]) <==> InputAt(p, Globals(p)[i])
      ensures PrivateVariable(p, Globals(p)[i]) <==> PrivateAt(p, Globals(p)[i])
    {
      InputIff(p, Globals(p)[i]);
      PrivateIff(p, Globals(p)[i]);
    }
  }

  lemma OpeningIff(p: seq<Instr>, k: Kernel)
    ensures Opening(p, k) && DefinesFunction(p, k.main) && (forall i :: 0 <= i < |p| ==> !Forbidden(p[i].op)) <==>
            Preamble(p) && Entry(p) && EntryId(p) == k.main && Interfaces(p) == k.interfaces
  {
    hide Ops, Forbidden, DefinesFunction;
    if EntryShape(p) {
      var e := Ops(p, OpEntryPoint)[0];
      assert e == [e[0], e[1], e[2]] + e[3..];
    }
    if Opening(p, k) {
      var e := Ops(p, OpEntryPoint)[0];
      assert e[3..] == k.interfaces;
    }
  }

  lemma KernelHasAbi(p: seq<Instr>, k: Kernel, o: nat, u: nat)
    requires Collectible(p) && IsKernel(p, k, o, u)
    ensures FixedAbi(p)
  {
    hide Collectible, Opening, OutputBlock, PushBlock, OnlyTheseGlobals, Permitted, Preamble, Entry, DecorationsAllowed;
    hide ScalarsAllowed, OutputAt, PushAt, LayoutClosed, InputsAre, InputAt, PrivateAt, EntryShape, Globals, Forbidden;
    BlocksMake(p, k);
    PermittedIff(p, k);
    OpeningIff(p, k);
    EntryHasShape(p);
    OutputIff(p, k);
    PushIff(p, k);
    GlobalsIff(p, k, o, u);
    assert Resources(p, o, u, k.outputStruct, k.elements, k.pushStruct);
  }

  lemma BlocksMake(p: seq<Instr>, k: Kernel)
    requires OutputBlock(p, k) && PushBlock(p, k)
    ensures k.output.result.Some?
    ensures Makes(p, k.elements, OpTypeRuntimeArray, [k.vec4]) && Makes(p, k.vec4, OpTypeVector, [k.f32, Num(4)])
    ensures Makes(p, k.f32, OpTypeFloat, [Num(32)]) && Makes(p, k.pushStruct, OpTypeStruct, [k.uvec4, k.pushVec4])
    ensures Makes(p, k.uvec4, OpTypeVector, [k.u32, Num(4)]) && Makes(p, k.u32, OpTypeInt, [Num(32), Num(0)])
    ensures Makes(p, k.pushVec4, OpTypeVector, [k.pushF32, Num(4)]) && Makes(p, k.pushF32, OpTypeFloat, [Num(32)])
  {
    hide Makes, Says;
  }

  lemma EntryHasShape(p: seq<Instr>)
    ensures Entry(p) ==> EntryShape(p) && DefinesFunction(p, EntryId(p))
  {
  }

  lemma AbiHasKernel(p: seq<Instr>) returns (k: Kernel, o: nat, u: nat)
    requires FixedAbi(p)
    ensures Collectible(p) && IsKernel(p, k, o, u)
  {
    hide Collectible, Preamble, Entry, DecorationsAllowed, ScalarsAllowed, Resources, IsKernel, EntryShape;
    EntryHasShape(p);
    var struct, elements, push;
    o, u, struct, elements, push :| Resources(p, o, u, struct, elements, push);
    k := ResourcesMakeKernel(p, o, u, struct, elements, push);
  }

  lemma ResourcesMakeKernel(p: seq<Instr>, o: nat, u: nat, struct: Token, elements: Token, push: Token)
    returns (k: Kernel)
    requires Preamble(p) && Entry(p) && DecorationsAllowed(p) && ScalarsAllowed(p) && EntryShape(p)
    requires Resources(p, o, u, struct, elements, push)
    ensures IsKernel(p, k, o, u)
  {
    hide Opening, OutputBlock, PushBlock, OnlyTheseGlobals, Permitted, Preamble, Entry, DecorationsAllowed;
    hide ScalarsAllowed, OutputAt, PushAt, LayoutClosed, InputsAre, InputAt, PrivateAt, EntryShape, Globals, Forbidden;
    EntryHasShape(p);
    var out, pushed := Globals(p)[o], Globals(p)[u];
    var vec4, f32 := ArrayOf(p, out, struct, elements);
    var uvec4, u32, pushVec4, pushF32 := MembersOf(p, pushed, push);
    k := Kernel(EntryId(p), Interfaces(p), out, struct, elements, vec4, f32, pushed, push, uvec4, u32, pushVec4, pushF32);
    OpeningIff(p, k);
    NothingForbidden(p);
    PermittedIff(p, k);
    OutputIff(p, k);
    PushIff(p, k);
    GlobalsIff(p, k, o, u);
  }

  lemma NothingForbidden(p: seq<Instr>)
    requires Preamble(p)
    ensures forall i :: 0 <= i < |p| ==> !Forbidden(p[i].op)
  {
  }

  lemma ArrayOf(p: seq<Instr>, g: Instr, struct: Token, elements: Token) returns (vec4: Token, f32: Token)
    requires OutputAt(p, g, struct, elements)
    ensures g.result.Some?
    ensures Makes(p, elements, OpTypeRuntimeArray, [vec4]) && Makes(p, vec4, OpTypeVector, [f32, Num(4)])
    ensures Makes(p, f32, OpTypeFloat, [Num(32)])
  {
    MakesIff(p);
    hide Makes, Defines, Decorates, MemberDecorates;
    vec4 :| Defines(p, elements, OpTypeRuntimeArray, [vec4]) && Vector(p, vec4, false, 4);
    f32 :| Defines(p, vec4, OpTypeVector, [f32, Num(4)]) && Scalar(p, f32, false);
  }

  lemma MembersOf(p: seq<Instr>, g: Instr, struct: Token)
    returns (uvec4: Token, u32: Token, vec4: Token, f32: Token)
    requires PushAt(p, g, struct)
    ensures Makes(p, struct, OpTypeStruct, [uvec4, vec4])
    ensures Makes(p, uvec4, OpTypeVector, [u32, Num(4)]) && Makes(p, u32, OpTypeInt, [Num(32), Num(0)])
    ensures Makes(p, vec4, OpTypeVector, [f32, Num(4)]) && Makes(p, f32, OpTypeFloat, [Num(32)])
  {
    MakesIff(p);
    hide Makes, Defines, Decorates, MemberDecorates;
    uvec4, vec4 :| Defines(p, struct, OpTypeStruct, [uvec4, vec4]) && Vector(p, uvec4, true, 4) && Vector(p, vec4, false, 4);
    u32 :| Defines(p, uvec4, OpTypeVector, [u32, Num(4)]) && Scalar(p, u32, true);
    f32 :| Defines(p, vec4, OpTypeVector, [f32, Num(4)]) && Scalar(p, f32, false);
  }

  /** The fixed ABI is exactly this: a collectible module that is a kernel, word for word. */
  lemma FixedAbiIffKernel(p: seq<Instr>)
    ensures FixedAbi(p) <==> Collectible(p) && exists k, o, u :: IsKernel(p, k, o, u)
  {
    hide FixedAbi, Collectible, IsKernel;
    if FixedAbi(p) {
      var k, o, u := AbiHasKernel(p);
    }
    if Collectible(p) && exists k, o, u :: IsKernel(p, k, o, u) {
      var k, o, u :| IsKernel(p, k, o, u);
      KernelHasAbi(p, k, o, u);
    }
  }

  // ---------------------------------------------------------------- functions and keys

  /** How many function starts and ends stand before place `n`. */
  function Marks(p: seq<Instr>, n: nat): nat
    requires n <= |p|
  {
    if n == 0 then 0
    else Marks(p, n - 1) + if p[n - 1].op.OpFunction? || p[n - 1].op.OpFunctionEnd? then 1 else 0
  }

  /** Starts and ends alternate, and no function is left open. */
  predicate Alternating(p: seq<Instr>) {
    && (forall i | 0 <= i < |p| && p[i].op.OpFunction? :: Marks(p, i) % 2 == 0)
    && (forall i | 0 <= i < |p| && p[i].op.OpFunctionEnd? :: Marks(p, i) % 2 == 1)
    && Marks(p, |p|) % 2 == 0
  }

  /** No result and no decoration key is given twice; variables have a storage class, inside a function `Function`. */
  predicate Orderly(p: seq<Instr>) {
    && (forall i, j | 0 <= i < j < |p| && p[i].result.Some? && p[j].result.Some? ::
          p[i].result.value != p[j].result.value)
    && (forall i | 0 <= i < |p| && p[i].op.OpVariable? ::
          (|p[i].args| == 2 || |p[i].args| == 3) && (Marks(p, i) % 2 == 1 ==> p[i].args[1] == Sym(Function)))
    && (forall i | 0 <= i < |p| && p[i].op.OpDecorate? :: |p[i].args| >= 2)
    && (forall i | 0 <= i < |p| && p[i].op.OpMemberDecorate? :: |p[i].args| >= 3)
    && (forall i, j | 0 <= i < j < |p| && p[i].op.OpDecorate? && p[j].op.OpDecorate? ::
          !(p[i].args[0] == p[j].args[0] && p[i].args[1] == p[j].args[1]))
    && (forall i, j | 0 <= i < j < |p| && p[i].op.OpMemberDecorate? && p[j].op.OpMemberDecorate? ::
          !(p[i].args[0] == p[j].args[0] && p[i].args[1] == p[j].args[1] && p[i].args[2] == p[j].args[2]))
  }

  lemma NothingInside()
    ensures !InFunction([])
  {
  }

  lemma InsideStep(p: seq<Instr>, n: nat)
    requires 0 < n <= |p|
    ensures InFunction(p[..n]) <==>
            p[n - 1].op.OpFunction? || (!p[n - 1].op.OpFunctionEnd? && InFunction(p[..n - 1]))
  {
    assert p[..n][..n - 1] == p[..n - 1] && p[..n][n - 1] == p[n - 1];
  }

  /** Up to `n`, being inside a function is a matter of parity. */
  lemma {:induction false} InsideIsOdd(p: seq<Instr>, n: nat)
    requires n <= |p|
    requires forall i | 0 <= i < n && p[i].op.OpFunction? :: Marks(p, i) % 2 == 0
    requires forall i | 0 <= i < n && p[i].op.OpFunctionEnd? :: Marks(p, i) % 2 == 1
    ensures InFunction(p[..n]) <==> Marks(p, n) % 2 == 1
    decreases n
  {
    hide InFunction;
    NothingInside();
    if n > 0 {
      InsideIsOdd(p, n - 1);
      InsideStep(p, n);
    }
  }

  /** The same when what is known are the states themselves. */
  lemma {:induction false} OddIsInside(p: seq<Instr>, n: nat)
    requires n <= |p|
    requires forall i | 0 <= i < n && p[i].op.OpFunction? :: !InFunction(p[..i])
    requires forall i | 0 <= i < n && p[i].op.OpFunctionEnd? :: InFunction(p[..i])
    ensures InFunction(p[..n]) <==> Marks(p, n) % 2 == 1
    decreases n
  {
    hide InFunction;
    NothingInside();
    if n > 0 {
      OddIsInside(p, n - 1);
      InsideStep(p, n);
    }
  }

  lemma KeyIff(a: seq<Token>, b: seq<Token>)
    ensures |a| >= 2 && |b| >= 2 ==> (SameKey(a, b, 2) <==> a[0] == b[0] && a[1] == b[1])
    ensures |a| >= 3 && |b| >= 3 ==> (SameKey(a, b, 3) <==> a[0] == b[0] && a[1] == b[1] && a[2] == b[2])
  {
    if |a| >= 2 && |b| >= 2 {
      assert a[..2] == [a[0], a[1]] && b[..2] == [b[0], b[1]];
    }
    if |a| >= 3 && |b| >= 3 {
      assert a[..3] == [a[0], a[1], a[2]] && b[..3] == [b[0], b[1], b[2]];
    }
  }

  /** What fitting means at one place, and against one earlier place. */
  lemma FitsAt(p: seq<Instr>, i: nat)
    requires Collectible(p) && i < |p|
    ensures p[i].op.OpFunction? ==> !InFunction(p[..i])
    ensures p[i].op.OpFunctionEnd? ==> InFunction(p[..i])
    ensures p[i].op.OpVariable? ==>
              (|p[i].args| == 2 || |p[i].args| == 3) && (InFunction(p[..i]) ==> p[i].args[1] == Sym(Function))
    ensures p[i].op.OpDecorate? ==> |p[i].args| >= 2
    ensures p[i].op.OpMemberDecorate? ==> |p[i].args| >= 3
  {
    hide InFunction, SameKey;
    assert Fits(p, i);
  }

  lemma FitsAgainst(p: seq<Instr>, j: nat, i: nat)
    requires Collectible(p) && j < i < |p|
    ensures p[i].result.Some? ==> p[j].result != p[i].result
    ensures p[i].op.OpDecorate? && p[j].op.OpDecorate? ==> !SameKey(p[j].args, p[i].args, 2)
    ensures p[i].op.OpMemberDecorate? && p[j].op.OpMemberDecorate? ==> !SameKey(p[j].args, p[i].args, 3)
  {
    hide InFunction, SameKey;
    assert Fits(p, i);
  }

  lemma CollectibleIsOrderly(p: seq<Instr>)
    requires Collectible(p)
    ensures Alternating(p) && Orderly(p)
  {
    hide InFunction, SameKey, Marks, Fits;
    forall i | 0 <= i <= |p| ensures InFunction(p[..i]) <==> Marks(p, i) % 2 == 1 {
      FitsKnows(p, i);
      OddIsInside(p, i);
    }
    assert p[..|p|] == p;
    forall i | 0 <= i < |p|
      ensures p[i].op.OpFunction? ==> Marks(p, i) % 2 == 0
      ensures p[i].op.OpFunctionEnd? ==> Marks(p, i) % 2 == 1
      ensures p[i].op.OpVariable? ==>
                (|p[i].args| == 2 || |p[i].args| == 3) && (Marks(p, i) % 2 == 1 ==> p[i].args[1] == Sym(Function))
      ensures p[i].op.OpDecorate? ==> |p[i].args| >= 2
      ensures p[i].op.OpMemberDecorate? ==> |p[i].args| >= 3
    {
      FitsAt(p, i);
    }
    forall i, j | 0 <= i < j < |p|
      ensures p[i].result.Some? && p[j].result.Some? ==> p[i].result.value != p[j].result.value
      ensures p[i].op.OpDecorate? && p[j].op.OpDecorate? ==>
                !(p[i].args[0] == p[j].args[0] && p[i].args[1] == p[j].args[1])
      ensures p[i].op.OpMemberDecorate? && p[j].op.OpMemberDecorate? ==>
                !(p[i].args[0] == p[j].args[0] && p[i].args[1] == p[j].args[1] && p[i].args[2] == p[j].args[2])
    {
      FitsAgainst(p, i, j);
      KeyIff(p[i].args, p[j].args);
    }
  }

  lemma FitsKnows(p: seq<Instr>, n: nat)
    requires Collectible(p) && n <= |p|
    ensures forall i | 0 <= i < n && p[i].op.OpFunction? :: !InFunction(p[..i])
    ensures forall i | 0 <= i < n && p[i].op.OpFunctionEnd? :: InFunction(p[..i])
  {
    hide InFunction, Fits;
    forall i | 0 <= i < n
      ensures p[i].op.OpFunction? ==> !InFunction(p[..i])
      ensures p[i].op.OpFunctionEnd? ==> InFunction(p[..i])
    {
      FitsAt(p, i);
    }
  }

  lemma OrderlyIsCollectible(p: seq<Instr>)
    requires Alternating(p) && Orderly(p)
    ensures Collectible(p)
  {
    hide InFunction, SameKey, Marks;
    forall i | 0 <= i <= |p| ensures InFunction(p[..i]) <==> Marks(p, i) % 2 == 1 {
      InsideIsOdd(p, i);
    }
    assert p[..|p|] == p;
    forall i | 0 <= i < |p| ensures Fits(p, i) {
      forall j | 0 <= j < i
        ensures |p[i].args| >= 2 && |p[j].args| >= 2 ==>
                  (SameKey(p[j].args, p[i].args, 2) <==> p[j].args[0] == p[i].args[0] && p[j].args[1] == p[i].args[1])
        ensures |p[i].args| >= 3 && |p[j].args| >= 3 ==>
                  (SameKey(p[j].args, p[i].args, 3) <==>
                   p[j].args[0] == p[i].args[0] && p[j].args[1] == p[i].args[1] && p[j].args[2] == p[i].args[2])
      {
        KeyIff(p[j].args, p[i].args);
      }
    }
  }

  /** The globals are the variables outside functions. */
  lemma {:induction false} GlobalsAreOutside(p: seq<Instr>, g: Instr)
    requires Collectible(p)
    ensures g in Globals(p) <==> exists i | 0 <= i < |p| :: p[i] == g && g.op.OpVariable? && Marks(p, i) % 2 == 0
  {
    assert p[..|p|] == p;
    GlobalsUpTo(p, |p|, g);
  }

  lemma {:induction false} GlobalsUpTo(p: seq<Instr>, n: nat, g: Instr)
    requires Collectible(p) && n <= |p|
    ensures g in Globals(p[..n]) <==> exists i | 0 <= i < n :: p[i] == g && g.op.OpVariable? && Marks(p, i) % 2 == 0
    decreases n
  {
    hide Collectible, Marks, InFunction;
    if n > 0 {
      GlobalsUpTo(p, n - 1, g);
      assert p[..n][..n - 1] == p[..n - 1] && p[..n][n - 1] == p[n - 1];
      FitsKnows(p, n - 1);
      OddIsInside(p, n - 1);
    }
  }

  /** The whole verdict of the reflection, word for word. */
  lemma FixedAbiInWords(p: seq<Instr>)
    ensures FixedAbi(p) <==> Alternating(p) && Orderly(p) && exists k, o, u :: IsKernel(p, k, o, u)
  {
    hide FixedAbi, Collectible, IsKernel, Alternating, Orderly;
    FixedAbiIffKernel(p);
    if Collectible(p) {
      CollectibleIsOrderly(p);
    }
    if Alternating(p) && Orderly(p) {
      OrderlyIsCollectible(p);
    }
  }
}
