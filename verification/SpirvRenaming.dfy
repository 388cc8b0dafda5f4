/** The ABI verdict depends on how ids are connected, never on the ids themselves. */
module SpirvRenaming {
  import opened Sequences
  import opened SpirvModule

  type Renaming = nat -> nat

  function RenameToken(f: Renaming, t: Token): Token {
    if t.Id? then Id(f(t.n)) else t
  }

  function RenameArgs(f: Renaming, args: seq<Token>): (r: seq<Token>)
    ensures |r| == |args|
  {
    seq(|args|, i requires 0 <= i < |args| => RenameToken(f, args[i]))
  }

  function RenameInstr(f: Renaming, x: Instr): Instr {
    Instr(if x.result.Some? then Some(f(x.result.value)) else None, x.op, RenameArgs(f, x.args))
  }

  function Rename(f: Renaming, p: seq<Instr>): (r: seq<Instr>)
    ensures |r| == |p|
  {
    seq(|p|, i requires 0 <= i < |p| => RenameInstr(f, p[i]))
  }

  ghost predicate Uses(p: seq<Instr>, n: nat) {
    exists i :: 0 <= i < |p| && (p[i].result == Some(n) || Id(n) in p[i].args)
  }

  /** `f` keeps the ids of `p` apart. */
  ghost predicate InjectiveOn(p: seq<Instr>, f: Renaming) {
    forall m, n :: Uses(p, m) && Uses(p, n) && f(m) == f(n) ==> m == n
  }

  // ---------------------------------------------------------------- views commute with renaming

  lemma RenameInit(f: Renaming, p: seq<Instr>, n: nat)
    requires n <= |p|
    ensures Rename(f, p)[..n] == Rename(f, p[..n])
  {
  }

  lemma {:induction false} InFunctionRenamed(f: Renaming, p: seq<Instr>)
    ensures InFunction(Rename(f, p)) == InFunction(p)
  {
    if p != [] {
      RenameInit(f, p, |p| - 1);
      InFunctionRenamed(f, p[..|p| - 1]);
    }
  }

  lemma {:induction false} GlobalsRenamed(f: Renaming, p: seq<Instr>)
    ensures Globals(Rename(f, p)) == Rename(f, Globals(p))
  {
    if p != [] {
      var init := p[..|p| - 1];
      RenameInit(f, p, |p| - 1);
      InFunctionRenamed(f, init);
      GlobalsRenamed(f, init);
    }
  }

  function RenameOps(f: Renaming, ops: seq<seq<Token>>): seq<seq<Token>> {
    seq(|ops|, i requires 0 <= i < |ops| => RenameArgs(f, ops[i]))
  }

  lemma {:induction false} OpsRenamed(f: Renaming, p: seq<Instr>, op: Opcode)
    ensures Ops(Rename(f, p), op) == RenameOps(f, Ops(p, op))
  {
    if p != [] {
      RenameInit(f, p, |p| - 1);
      OpsRenamed(f, p[..|p| - 1], op);
    }
  }

  lemma {:induction false} OpsUse(p: seq<Instr>, op: Opcode, k: nat, n: nat)
    requires k < |Ops(p, op)| && Id(n) in Ops(p, op)[k]
    ensures Uses(p, n)
  {
    var init := p[..|p| - 1];
    if k < |Ops(init, op)| {
      OpsUse(init, op, k, n);
      var i :| 0 <= i < |init| && (init[i].result == Some(n) || Id(n) in init[i].args);
      assert p[i] == init[i];
    } else {
      assert Id(n) in p[|p| - 1].args;
    }
  }

  // ---------------------------------------------------------------- facts carry over

  lemma LiteralArgs(f: Renaming)
    ensures RenameArgs(f, []) == []
    ensures forall n :: RenameArgs(f, [Num(n)]) == [Num(n)]
    ensures forall m, n :: RenameArgs(f, [Num(m), Num(n)]) == [Num(m), Num(n)]
    ensures forall s :: RenameArgs(f, [Sym(s)]) == [Sym(s)]
    ensures forall t :: RenameArgs(f, [t]) == [RenameToken(f, t)]
    ensures forall t, n :: RenameArgs(f, [t, Num(n)]) == [RenameToken(f, t), Num(n)]
    ensures forall s, t :: RenameArgs(f, [Sym(s), t]) == [Sym(s), RenameToken(f, t)]
    ensures forall t, u :: RenameArgs(f, [t, u]) == [RenameToken(f, t), RenameToken(f, u)]
  {
  }

  lemma DefinesRenamed(f: Renaming, p: seq<Instr>, id: Token, op: Opcode, args: seq<Token>)
    requires Defines(p, id, op, args)
    ensures Defines(Rename(f, p), RenameToken(f, id), op, RenameArgs(f, args))
  {
    var i :| 0 <= i < |p| && p[i].result.Some? && Id(p[i].result.value) == id && p[i].op == op && p[i].args == args;
    assert Rename(f, p)[i] == RenameInstr(f, p[i]);
  }

  lemma DecoratesRenamed(f: Renaming, p: seq<Instr>, target: Token, kind: Symbol, values: seq<Token>)
    requires Decorates(p, target, kind, values)
    ensures Decorates(Rename(f, p), RenameToken(f, target), kind, RenameArgs(f, values))
  {
    var i :| 0 <= i < |p| && p[i].op.OpDecorate? && p[i].args == [target, Sym(kind)] + values;
    assert Rename(f, p)[i].args == [RenameToken(f, target), Sym(kind)] + RenameArgs(f, values);
  }

  lemma MemberRenamed(f: Renaming, p: seq<Instr>, target: Token, index: nat, kind: Symbol, values: seq<Token>)
    requires MemberDecorates(p, target, index, kind, values)
    ensures MemberDecorates(Rename(f, p), RenameToken(f, target), index, kind, RenameArgs(f, values))
  {
    var i :| 0 <= i < |p| && p[i].op.OpMemberDecorate? && p[i].args == [target, Num(index), Sym(kind)] + values;
    assert Rename(f, p)[i].args == [RenameToken(f, target), Num(index), Sym(kind)] + RenameArgs(f, values);
  }

  lemma ScalarRenamed(f: Renaming, p: seq<Instr>, id: Token, unsigned: bool)
    requires Scalar(p, id, unsigned)
    ensures Scalar(Rename(f, p), RenameToken(f, id), unsigned)
  {
    LiteralArgs(f);
    if unsigned {
      DefinesRenamed(f, p, id, OpTypeInt, [Num(32), Num(0)]);
    } else {
      DefinesRenamed(f, p, id, OpTypeFloat, [Num(32)]);
    }
  }

  lemma VectorRenamed(f: Renaming, p: seq<Instr>, id: Token, unsigned: bool, width: nat)
    requires Vector(p, id, unsigned, width)
    ensures Vector(Rename(f, p), RenameToken(f, id), unsigned, width)
  {
    hide Scalar, Defines;
    var scalar :| Defines(p, id, OpTypeVector, [scalar, Num(width)]) && Scalar(p, scalar, unsigned);
    LiteralArgs(f);
    DefinesRenamed(f, p, id, OpTypeVector, [scalar, Num(width)]);
    ScalarRenamed(f, p, scalar, unsigned);
  }

  lemma PointsRenamed(f: Renaming, p: seq<Instr>, g: Instr, storage: Symbol, target: Token)
    requires Points(p, g, storage, target)
    ensures Points(Rename(f, p), RenameInstr(f, g), storage, RenameToken(f, target))
  {
    hide Defines;
    LiteralArgs(f);
    DefinesRenamed(f, p, g.args[0], OpTypePointer, [Sym(storage), target]);
  }

  lemma Vec4ArrayRenamed(f: Renaming, p: seq<Instr>, elements: Token)
    requires Vec4Array(p, elements)
    ensures Vec4Array(Rename(f, p), RenameToken(f, elements))
  {
    hide Defines, Decorates, Vector;
    LiteralArgs(f);
    DecoratesRenamed(f, p, elements, ArrayStride, [Num(16)]);
    var v :| Defines(p, elements, OpTypeRuntimeArray, [v]) && Vector(p, v, false, 4);
    DefinesRenamed(f, p, elements, OpTypeRuntimeArray, [v]);
    VectorRenamed(f, p, v, false, 4);
  }

  lemma OutputRenamed(f: Renaming, p: seq<Instr>, g: Instr, struct: Token, elements: Token)
    requires OutputAt(p, g, struct, elements)
    ensures OutputAt(Rename(f, p), RenameInstr(f, g), RenameToken(f, struct), RenameToken(f, elements))
  {
    hide Defines, Decorates, MemberDecorates, Vec4Array, Points;
    LiteralArgs(f);
    var name := Id(g.result.value);
    PointsRenamed(f, p, g, StorageBuffer, struct);
    DecoratesRenamed(f, p, name, DescriptorSet, [Num(0)]);
    DecoratesRenamed(f, p, name, Binding, [Num(0)]);
    DecoratesRenamed(f, p, struct, Block, []);
    MemberRenamed(f, p, struct, 0, Offset, [Num(0)]);
    MemberRenamed(f, p, struct, 0, NonReadable, []);
    DefinesRenamed(f, p, struct, OpTypeStruct, [elements]);
    Vec4ArrayRenamed(f, p, elements);
  }

  lemma PushMembersRenamed(f: Renaming, p: seq<Instr>, struct: Token)
    requires PushMembers(p, struct)
    ensures PushMembers(Rename(f, p), RenameToken(f, struct))
  {
    hide Defines, Vector;
    LiteralArgs(f);
    var a, b :| Defines(p, struct, OpTypeStruct, [a, b]) && Vector(p, a, true, 4) && Vector(p, b, false, 4);
    DefinesRenamed(f, p, struct, OpTypeStruct, [a, b]);
    VectorRenamed(f, p, a, true, 4);
    VectorRenamed(f, p, b, false, 4);
  }

  lemma PushRenamed(f: Renaming, p: seq<Instr>, g: Instr, struct: Token)
    requires PushAt(p, g, struct)
    ensures PushAt(Rename(f, p), RenameInstr(f, g), RenameToken(f, struct))
  {
    hide Decorates, MemberDecorates, PushMembers, Points;
    LiteralArgs(f);
    PointsRenamed(f, p, g, PushConstant, struct);
    DecoratesRenamed(f, p, struct, Block, []);
    MemberRenamed(f, p, struct, 0, Offset, [Num(0)]);
    MemberRenamed(f, p, struct, 1, Offset, [Num(16)]);
    PushMembersRenamed(f, p, struct);
  }

  lemma InputTypedRenamed(f: Renaming, p: seq<Instr>, name: Token, typ: Token)
    requires InputTyped(p, name, typ)
    ensures InputTyped(Rename(f, p), RenameToken(f, name), RenameToken(f, typ))
  {
    hide Decorates, Scalar, Vector;
    LiteralArgs(f);
    if Decorates(p, name, BuiltIn, [Sym(LocalInvocationIndex)]) && Scalar(p, typ, true) {
      DecoratesRenamed(f, p, name, BuiltIn, [Sym(LocalInvocationIndex)]);
      ScalarRenamed(f, p, typ, true);
    } else {
      var b :| VectorBuiltin(b) && Decorates(p, name, BuiltIn, [Sym(b)]);
      DecoratesRenamed(f, p, name, BuiltIn, [Sym(b)]);
      VectorRenamed(f, p, typ, true, 3);
    }
  }

  lemma InputRenamed(f: Renaming, p: seq<Instr>, g: Instr)
    ensures InputAt(p, g) ==> InputAt(Rename(f, p), RenameInstr(f, g))
    ensures PrivateAt(p, g) ==> PrivateAt(Rename(f, p), RenameInstr(f, g))
  {
    hide InputTyped, Points;
    if InputAt(p, g) {
      var t :| Points(p, g, Input, t) && InputTyped(p, Id(g.result.value), t);
      PointsRenamed(f, p, g, Input, t);
      InputTypedRenamed(f, p, Id(g.result.value), t);
    }
    if t :| Points(p, g, Private, t) {
      PointsRenamed(f, p, g, Private, t);
    }
  }

  // ---------------------------------------------------------------- the parts of the ABI carry over

  lemma SameKeyRenamed(f: Renaming, p: seq<Instr>, i: nat, j: nat, n: nat)
    requires InjectiveOn(p, f) && i < |p| && j < |p|
    requires SameKey(RenameArgs(f, p[j].args), RenameArgs(f, p[i].args), n)
    ensures SameKey(p[j].args, p[i].args, n)
  {
    var a, b := p[j].args, p[i].args;
    forall k | 0 <= k < n ensures a[k] == b[k] {
      assert RenameArgs(f, a)[..n][k] == RenameArgs(f, b)[..n][k];
      assert a[k].Id? ==> Uses(p, a[k].n);
      assert b[k].Id? ==> Uses(p, b[k].n);
    }
    assert a[..n] == b[..n];
  }

  lemma FitsRenamed(f: Renaming, p: seq<Instr>, i: nat)
    requires InjectiveOn(p, f) && i < |p| && Fits(p, i)
    ensures Fits(Rename(f, p), i)
  {
    hide InjectiveOn, SameKey, InFunction;
    var q := Rename(f, p);
    RenameInit(f, p, i);
    InFunctionRenamed(f, p[..i]);
    forall j | 0 <= j < i
      ensures q[i].result.Some? ==> q[j].result != q[i].result
      ensures SameKey(q[j].args, q[i].args, 2) ==> SameKey(p[j].args, p[i].args, 2)
      ensures SameKey(q[j].args, q[i].args, 3) ==> SameKey(p[j].args, p[i].args, 3)
    {
      ResultRenamed(f, p, i, j);
      if SameKey(q[j].args, q[i].args, 2) {
        SameKeyRenamed(f, p, i, j, 2);
      }
      if SameKey(q[j].args, q[i].args, 3) {
        SameKeyRenamed(f, p, i, j, 3);
      }
    }
  }

  lemma ResultRenamed(f: Renaming, p: seq<Instr>, i: nat, j: nat)
    requires InjectiveOn(p, f) && i < |p| && j < |p|
    requires p[i].result.Some? ==> p[j].result != p[i].result
    ensures p[i].result.Some? ==> RenameInstr(f, p[j]).result != RenameInstr(f, p[i]).result
  {
    if p[i].result.Some? && p[j].result.Some? {
      assert Uses(p, p[i].result.value) && Uses(p, p[j].result.value);
    }
  }

  lemma CollectibleRenamed(f: Renaming, p: seq<Instr>)
    requires InjectiveOn(p, f) && Collectible(p)
    ensures Collectible(Rename(f, p))
  {
    hide InjectiveOn, Fits, InFunction;
    InFunctionRenamed(f, p);
    forall i | 0 <= i < |p| ensures Fits(Rename(f, p), i) {
      FitsRenamed(f, p, i);
    }
  }

  lemma PreambleRenamed(f: Renaming, p: seq<Instr>)
    requires Preamble(p)
    ensures Preamble(Rename(f, p))
  {
    OpsRenamed(f, p, OpCapability);
    OpsRenamed(f, p, OpMemoryModel);
    OpsRenamed(f, p, OpExtInstImport);
    LiteralArgs(f);
    assert RenameArgs(f, [Text(GLSL_STD_450)]) == [Text(GLSL_STD_450)];
    assert forall i :: 0 <= i < |p| ==> Rename(f, p)[i].op == p[i].op;
  }

  lemma EntryRenamed(f: Renaming, p: seq<Instr>)
    requires EntryShape(p)
    ensures EntryShape(Rename(f, p))
    ensures EntryId(Rename(f, p)) == RenameToken(f, EntryId(p))
    ensures Interfaces(Rename(f, p)) == RenameArgs(f, Interfaces(p))
  {
    OpsRenamed(f, p, OpEntryPoint);
  }

  lemma EntryModeRenamed(f: Renaming, p: seq<Instr>)
    requires InjectiveOn(p, f) && EntryShape(p) && EntryMode(p) && DefinesFunction(p, EntryId(p))
    ensures EntryShape(Rename(f, p)) && EntryMode(Rename(f, p))
    ensures DefinesFunction(Rename(f, p), EntryId(Rename(f, p)))
  {
    var q := Rename(f, p);
    EntryRenamed(f, p);
    OpsRenamed(f, p, OpExecutionMode);
    var e := EntryId(p);
    var i :| 0 <= i < |p| && p[i].result.Some? && Id(p[i].result.value) == e && p[i].op.OpFunction?;
    assert q[i] == RenameInstr(f, p[i]);
    assert RenameArgs(f, [e, Sym(LocalSize), Num(2), Num(1), Num(1)])
        == [RenameToken(f, e), Sym(LocalSize), Num(2), Num(1), Num(1)];
    InterfacesStayDistinct(f, p);
  }

  lemma InterfacesStayDistinct(f: Renaming, p: seq<Instr>)
    requires InjectiveOn(p, f) && EntryShape(p) && Distinct(Interfaces(p))
    ensures Distinct(RenameArgs(f, Interfaces(p)))
  {
    var x := Interfaces(p);
    forall i, j | 0 <= i < j < |x| ensures RenameToken(f, x[i]) != RenameToken(f, x[j]) {
      if x[i].Id? && x[j].Id? {
        OpsUse(p, OpEntryPoint, 0, x[i].n);
        OpsUse(p, OpEntryPoint, 0, x[j].n);
      }
    }
  }

  lemma AllowedRenamed(f: Renaming, p: seq<Instr>)
    requires DecorationsAllowed(p) && ScalarsAllowed(p)
    ensures DecorationsAllowed(Rename(f, p)) && ScalarsAllowed(Rename(f, p))
  {
    var q := Rename(f, p);
    LiteralArgs(f);
    forall i | 0 <= i < |q|
      ensures q[i].op.OpDecorate? ==> 2 <= |q[i].args| && DecorationAllowed(q[i].args[1], q[i].args[2..])
      ensures q[i].op.OpMemberDecorate? ==> 3 <= |q[i].args| && DecorationAllowed(q[i].args[2], q[i].args[3..])
      ensures q[i].op.OpTypeInt? ==> q[i].args == [Num(32), Num(0)] || q[i].args == [Num(32), Num(1)]
      ensures q[i].op.OpTypeFloat? ==> q[i].args == [Num(32)]
    {
      assert q[i] == RenameInstr(f, p[i]);
    }
  }

  lemma LayoutRenamed(f: Renaming, p: seq<Instr>, output: Token, struct: Token, elements: Token, push: Token)
    requires LayoutClosed(p, output, struct, elements, push)
    ensures LayoutClosed(Rename(f, p), RenameToken(f, output), RenameToken(f, struct), RenameToken(f, elements),
                         RenameToken(f, push))
  {
    var q := Rename(f, p);
    assert forall i :: 0 <= i < |p| ==> q[i] == RenameInstr(f, p[i]);
  }

  lemma InputsRenamed(f: Renaming, g: seq<Instr>, interfaces: seq<Token>)
    requires InputsAre(g, interfaces)
    ensures InputsAre(Rename(f, g), RenameArgs(f, interfaces))
  {
    var h, names := Rename(f, g), RenameArgs(f, interfaces);
    forall k | 0 <= k < |h| && Stored(h[k], Input) ensures h[k].result.Some? && Id(h[k].result.value) in names {
      assert Stored(g[k], Input) && Id(g[k].result.value) in interfaces;
      var i :| 0 <= i < |interfaces| && interfaces[i] == Id(g[k].result.value);
      assert names[i] == Id(h[k].result.value);
    }
    forall x | x in names
      ensures exists k :: 0 <= k < |h| && Stored(h[k], Input) && h[k].result.Some? && Id(h[k].result.value) == x
    {
      var i :| 0 <= i < |names| && names[i] == x;
      assert interfaces[i] in interfaces;
      var k :| 0 <= k < |g| && Stored(g[k], Input) && g[k].result.Some? && Id(g[k].result.value) == interfaces[i];
      assert Stored(h[k], Input) && Id(h[k].result.value) == x;
    }
  }

  lemma ResourcesRenamed(f: Renaming, p: seq<Instr>, o: nat, u: nat, struct: Token, elements: Token, push: Token)
    requires EntryShape(p) && Resources(p, o, u, struct, elements, push)
    ensures EntryShape(Rename(f, p))
    ensures Resources(Rename(f, p), o, u, RenameToken(f, struct), RenameToken(f, elements), RenameToken(f, push))
  {
    hide OutputAt, PushAt, InputAt, PrivateAt, InputsAre, LayoutClosed, EntryShape;
    var g := Globals(p);
    EntryRenamed(f, p);
    GlobalsRenamed(f, p);
    OutputRenamed(f, p, g[o], struct, elements);
    PushRenamed(f, p, g[u], push);
    forall k | 0 <= k < |g| ensures InputAt(p, g[k]) ==> InputAt(Rename(f, p), RenameInstr(f, g[k]))
                            ensures PrivateAt(p, g[k]) ==> PrivateAt(Rename(f, p), RenameInstr(f, g[k]))
    {
      InputRenamed(f, p, g[k]);
    }
    InputsRenamed(f, g, Interfaces(p));
    OutputNamed(p, g[o], struct, elements);
    LayoutRenamed(f, p, Id(g[o].result.value), struct, elements, push);
  }

  lemma OutputNamed(p: seq<Instr>, g: Instr, struct: Token, elements: Token)
    requires OutputAt(p, g, struct, elements)
    ensures g.result.Some?
  {
  }

  lemma FixedAbiRenamed(f: Renaming, p: seq<Instr>)
    requires InjectiveOn(p, f) && FixedAbi(p)
    ensures FixedAbi(Rename(f, p))
  {
    hide InjectiveOn, Collectible, Preamble, EntryShape, EntryMode, DefinesFunction, DecorationsAllowed, ScalarsAllowed,
      Resources;
    CollectibleRenamed(f, p);
    PreambleRenamed(f, p);
    EntryModeRenamed(f, p);
    AllowedRenamed(f, p);
    var o: nat, u: nat, struct, elements, push :| Resources(p, o, u, struct, elements, push);
    ResourcesRenamed(f, p, o, u, struct, elements, push);
  }

  // ---------------------------------------------------------------- and back

  /** Undoes `f` on the ids of `p`. */
  ghost function Inverse(p: seq<Instr>, f: Renaming): Renaming {
    (n: nat) => if exists m: nat :: Uses(p, m) && f(m) == n then var m: nat :| Uses(p, m) && f(m) == n; m else 0
  }

  lemma InverseUndoes(p: seq<Instr>, f: Renaming, m: nat)
    requires InjectiveOn(p, f) && Uses(p, m)
    ensures Inverse(p, f)(f(m)) == m
  {
  }

  lemma UsesRenamed(f: Renaming, p: seq<Instr>, n: nat) returns (m: nat)
    requires Uses(Rename(f, p), n)
    ensures Uses(p, m) && f(m) == n
  {
    var q := Rename(f, p);
    var i :| 0 <= i < |q| && (q[i].result == Some(n) || Id(n) in q[i].args);
    if q[i].result == Some(n) {
      m := p[i].result.value;
    } else {
      var k :| 0 <= k < |q[i].args| && q[i].args[k] == Id(n);
      m := p[i].args[k].n;
      assert Id(m) in p[i].args;
    }
  }

  lemma RenameBack(p: seq<Instr>, f: Renaming)
    requires InjectiveOn(p, f)
    ensures Rename(Inverse(p, f), Rename(f, p)) == p
    ensures InjectiveOn(Rename(f, p), Inverse(p, f))
  {
    hide Inverse;
    var g, q := Inverse(p, f), Rename(f, p);
    forall i | 0 <= i < |p| ensures RenameInstr(g, q[i]) == p[i] {
      if p[i].result.Some? {
        InverseUndoes(p, f, p[i].result.value);
      }
      forall k | 0 <= k < |p[i].args| ensures RenameToken(g, q[i].args[k]) == p[i].args[k] {
        if p[i].args[k].Id? {
          assert Id(p[i].args[k].n) in p[i].args;
          InverseUndoes(p, f, p[i].args[k].n);
        }
      }
      assert RenameArgs(g, q[i].args) == p[i].args;
    }
    forall x, y | Uses(q, x) && Uses(q, y) && g(x) == g(y) ensures x == y {
      var m := UsesRenamed(f, p, x);
      var n := UsesRenamed(f, p, y);
      InverseUndoes(p, f, m);
      InverseUndoes(p, f, n);
    }
  }

  /** Renaming ids without merging any never changes the verdict. */
  lemma VerdictIsRenamingInvariant(p: seq<Instr>, f: Renaming)
    requires InjectiveOn(p, f)
    ensures FixedAbi(Rename(f, p)) <==> FixedAbi(p)
  {
    hide FixedAbi, InjectiveOn, Rename, Inverse;
    if FixedAbi(p) {
      FixedAbiRenamed(f, p);
    }
    RenameBack(p, f);
    if FixedAbi(Rename(f, p)) {
      FixedAbiRenamed(Inverse(p, f), Rename(f, p));
    }
  }
}
