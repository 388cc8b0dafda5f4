/**
 * Writing interface instructions as words, the inverse of the decoder in `binary_contract`.
 * With it, every module that has the fixed ABI is shown to occur in an accepted file.
 */
module SpirvEncode {
  import opened Sequences
  import opened Octets
  import opened SpirvWords
  import opened SpirvModule
  import opened SpirvBinary

  // ---------------------------------------------------------------- one operand

  /** How the decoder reads an operand word. */
  datatype Field =
    | AnId | ANumber | ACapability | AnAddressing | AMemory | AModel | AMode | AStorage | ADecoration | ABuiltin

  function Named1(w: Word, code: Word, s: Symbol): Token {
    if w == code then Sym(s) else Num(w)
  }

  function TokenFor(f: Field, w: Word): Token {
    match f
    case AnId => Id(w)
    case ANumber => Num(w)
    case ACapability => Named1(w, 1, Shader)
    case AnAddressing => Named1(w, 0, Logical)
    case AMemory => Named1(w, 1, GLSL450)
    case AModel => Named1(w, 5, GLCompute)
    case AMode => Named1(w, 17, LocalSize)
    case AStorage => StorageToken(w)
    case ADecoration => DecorationToken(w)
    case ABuiltin => BuiltinToken(w)
  }

  /** The code of a symbol; no symbol has two. */
  function SymbolWord(s: Symbol): Word {
    match s
    case Shader => 1 case Logical => 0 case GLSL450 => 1 case GLCompute => 5 case LocalSize => 17
    case Input => 1 case Private => 6 case Function => 7 case PushConstant => 9 case StorageBuffer => 12
    case RelaxedPrecision => 0 case Block => 2 case ArrayStride => 6 case BuiltIn => 11 case Restrict => 19
    case Aliased => 20 case Coherent => 23 case NonWritable => 24 case NonReadable => 25
    case Binding => 33 case DescriptorSet => 34 case Offset => 35 case NoContraction => 42
    case NumWorkgroups => 24 case WorkgroupSize => 25 case WorkgroupId => 26
    case LocalInvocationId => 27 case GlobalInvocationId => 28 case LocalInvocationIndex => 29
  }

  function Clipped(n: nat): Word {
    if n < 0x1_0000_0000 then n else 0
  }

  function WordFor(t: Token): Word {
    match t
    case Id(n) => Clipped(n)
    case Num(n) => Clipped(n)
    case Sym(s) => SymbolWord(s)
    case Text(_) => 0
  }

  /** `t` can stand where the decoder reads an operand as `f`. */
  predicate Suits(f: Field, t: Token, bound: Word) {
    TokenFor(f, WordFor(t)) == t && (f.AnId? ==> IsId(WordFor(t), bound))
  }

  /** Where each symbol may stand. */
  function FieldFor(s: Symbol): Field {
    match s
    case Shader => ACapability
    case Logical => AnAddressing
    case GLSL450 => AMemory
    case GLCompute => AModel
    case LocalSize => AMode
    case Input | Private | Function | PushConstant | StorageBuffer => AStorage
    case NumWorkgroups | WorkgroupSize | WorkgroupId | LocalInvocationId | GlobalInvocationId
      | LocalInvocationIndex => ABuiltin
    case _ => ADecoration
  }

  /** The decoder knows every symbol by its code, and only in its place. */
  lemma SymbolsAreRead(f: Field, s: Symbol, w: Word)
    ensures TokenFor(f, w) == Sym(s) <==> f == FieldFor(s) && w == SymbolWord(s)
  {
  }

  /** A decoded operand suits its place and is written back as the same word. */
  lemma TokenRoundTrip(f: Field, w: Word, bound: Word)
    requires f.AnId? ==> IsId(w, bound)
    ensures WordFor(TokenFor(f, w)) == w && Suits(f, TokenFor(f, w), bound)
  {
  }

  // ---------------------------------------------------------------- the operands of an instruction

  function Code(op: Opcode): nat {
    match op
    case OpExtInstImport => 11 case OpMemoryModel => 14 case OpEntryPoint => 15 case OpExecutionMode => 16
    case OpCapability => 17 case OpTypeVoid => 19 case OpTypeBool => 20 case OpTypeInt => 21
    case OpTypeFloat => 22 case OpTypeVector => 23 case OpTypeMatrix => 24 case OpTypeArray => 28
    case OpTypeRuntimeArray => 29 case OpTypeStruct => 30 case OpTypePointer => 32 case OpTypeFunction => 33
    case OpFunction => 54 case OpFunctionEnd => 56 case OpVariable => 59 case OpDecorate => 71
    case OpMemberDecorate => 72
    case _ => 0
  }

  predicate IsType(op: Opcode) {
    19 <= Code(op) <= 33
  }

  predicate HasResult(op: Opcode) {
    op.OpExtInstImport? || op.OpFunction? || op.OpVariable? || IsType(op)
  }

  function IdFields(n: nat): seq<Field> {
    seq(n, i => AnId)
  }

  function ValueFields(builtin: bool, n: nat): seq<Field> {
    seq(n, i => if builtin then ABuiltin else ANumber)
  }

  function When(c: bool, fields: seq<Field>): Option<seq<Field>> {
    if c then Some(fields) else None
  }

  /** The fields of `n` operands without result, or None when an instruction without literal string cannot have them. */
  function Layout(op: Opcode, n: nat, builtin: bool): Option<seq<Field>> {
    match op
    case OpCapability => When(n == 1, [ACapability])
    case OpMemoryModel => When(n == 2, [AnAddressing, AMemory])
    case OpExecutionMode => When(n == 5, [AnId, AMode, ANumber, ANumber, ANumber])
    case OpDecorate => if n >= 2 then Some([AnId, ADecoration] + ValueFields(builtin, n - 2)) else None
    case OpMemberDecorate =>
      if n >= 3 then Some([AnId, ANumber, ADecoration] + ValueFields(builtin, n - 3)) else None
    case OpTypeVoid | OpTypeBool | OpFunctionEnd => When(n == 0, [])
    case OpTypeInt => When(n == 2, [ANumber, ANumber])
    case OpTypeFloat => When(n == 1, [ANumber])
    case OpTypeVector | OpTypeMatrix => When(n == 2, [AnId, ANumber])
    case OpTypeArray => When(n == 2, [AnId, AnId])
    case OpTypeRuntimeArray => When(n == 1, [AnId])
    case OpTypeStruct | OpTypeFunction => Some(IdFields(n))
    case OpTypePointer => When(n == 2, [AStorage, AnId])
    case OpVariable => if 2 <= n <= 3 then Some([AnId, AStorage] + IdFields(n - 2)) else None
    case OpFunction => When(n == 3, [AnId, ANumber, AnId])
    case _ => None
  }

  /** Whether the decoration is BuiltIn, told from its token or from its word. */
  predicate BuiltinAmong(op: Opcode, args: seq<Token>) {
    || (op.OpDecorate? && |args| > 1 && args[1] == Sym(BuiltIn))
    || (op.OpMemberDecorate? && |args| > 2 && args[2] == Sym(BuiltIn))
  }

  predicate BuiltinWord(op: Opcode, ws: seq<Word>) {
    (op.OpDecorate? && |ws| > 1 && ws[1] == 11) || (op.OpMemberDecorate? && |ws| > 2 && ws[2] == 11)
  }

  predicate AllSuit(fields: seq<Field>, args: seq<Token>, bound: Word) {
    |fields| == |args| && forall i | 0 <= i < |args| :: Suits(fields[i], args[i], bound)
  }

  predicate IdsValid(fields: seq<Field>, ws: seq<Word>, bound: Word) {
    |fields| == |ws| && forall i | 0 <= i < |ws| :: fields[i].AnId? ==> IsId(ws[i], bound)
  }

  function Written(args: seq<Token>): (r: seq<Word>)
    ensures |r| == |args|
  {
    seq(|args|, i requires 0 <= i < |args| => WordFor(args[i]))
  }

  function Read(fields: seq<Field>, ws: seq<Word>): (r: seq<Token>)
    requires |fields| == |ws|
    ensures |r| == |ws|
  {
    seq(|ws|, i requires 0 <= i < |ws| => TokenFor(fields[i], ws[i]))
  }

  /** Writing and reading operands are inverse to each other. */
  lemma ReadWritten(fields: seq<Field>, args: seq<Token>, bound: Word)
    requires AllSuit(fields, args, bound)
    ensures IdsValid(fields, Written(args), bound) && Read(fields, Written(args)) == args
  {
    forall i | 0 <= i < |args|
      ensures TokenFor(fields[i], Written(args)[i]) == args[i]
      ensures fields[i].AnId? ==> IsId(Written(args)[i], bound)
    {
      assert Suits(fields[i], args[i], bound);
    }
  }

  lemma WrittenRead(fields: seq<Field>, ws: seq<Word>, bound: Word)
    requires IdsValid(fields, ws, bound)
    ensures AllSuit(fields, Read(fields, ws), bound) && Written(Read(fields, ws)) == ws
  {
    hide TokenFor, WordFor, Suits;
    forall i | 0 <= i < |ws|
      ensures Suits(fields[i], TokenFor(fields[i], ws[i]), bound) && WordFor(TokenFor(fields[i], ws[i])) == ws[i]
    {
      TokenRoundTrip(fields[i], ws[i], bound);
    }
  }

  // ---------------------------------------------------------------- instructions

  predicate ResultSuits(x: Instr, bound: Word) {
    if HasResult(x.op) then x.result.Some? && 0 < x.result.value < bound else x.result.None?
  }

  predicate HasText(op: Opcode) {
    op.OpExtInstImport? || op.OpEntryPoint?
  }

  predicate OperandsSuit(x: Instr, bound: Word) {
    match x.op
    case OpExtInstImport => |x.args| == 1 && x.args[0].Text? && PlainAscii(x.args[0].t)
    case OpEntryPoint =>
      && |x.args| >= 3 && AllSuit([AModel, AnId], x.args[..2], bound)
      && x.args[2].Text? && PlainAscii(x.args[2].t) && AllSuit(IdFields(|x.args| - 3), x.args[3..], bound)
    case _ =>
      var layout := Layout(x.op, |x.args|, BuiltinAmong(x.op, x.args));
      layout.Some? && AllSuit(layout.value, x.args, bound)
  }

  /** The result stands first, except behind the type of a variable or function. */
  function Placed(op: Opcode, result: Option<nat>, ws: seq<Word>): seq<Word> {
    if result.None? then ws
    else if (op.OpVariable? || op.OpFunction?) && ws != [] then [ws[0], Clipped(result.value)] + ws[1..]
    else [Clipped(result.value)] + ws
  }

  function Operands(x: Instr): seq<Word> {
    match x.op
    case OpExtInstImport =>
      Placed(x.op, x.result, if |x.args| > 0 && x.args[0].Text? then PackString(x.args[0].t) else [])
    case OpEntryPoint =>
      if |x.args| >= 3 && x.args[2].Text? then
        Written(x.args[..2]) + PackString(x.args[2].t) + Written(x.args[3..])
      else []
    case _ => Placed(x.op, x.result, Written(x.args))
  }

  /** The instructions that can be written with ids below `bound`. */
  predicate Encodable(x: Instr, bound: Word) {
    ResultSuits(x, bound) && OperandsSuit(x, bound) && |Operands(x)| < 0xffff
  }

  function EncodeInstr(x: Instr): (r: seq<Word>)
    requires |Operands(x)| < 0xffff
    ensures |r| == |Operands(x)| + 1
  {
    [(|Operands(x)| + 1) * 0x1_0000 + Code(x.op)] + Operands(x)
  }

  predicate AllEncodable(p: seq<Instr>, bound: Word) {
    forall i | 0 <= i < |p| :: Encodable(p[i], bound)
  }

  function Encode(p: seq<Instr>, bound: Word): seq<Word>
    requires AllEncodable(p, bound)
  {
    if p == [] then [] else EncodeInstr(p[0]) + Encode(p[1..], bound)
  }

  // ---------------------------------------------------------------- the decoder by its layouts

  /** What the decoder makes of operand words of an instruction without literal string. */
  function Tabular(op: Opcode, result: Option<nat>, ws: seq<Word>, bound: Word): Decoded {
    var layout := Layout(op, |ws|, BuiltinWord(op, ws));
    if layout.Some? && IdsValid(layout.value, ws, bound) then Line(Instr(result, op, Read(layout.value, ws)))
    else Refused
  }

  lemma DecodeCapability(p: seq<Word>, bound: Word)
    ensures Decode(17, p, bound) == Tabular(OpCapability, None, p, bound)
  {
  }

  lemma DecodeMemoryModel(p: seq<Word>, bound: Word)
    ensures Decode(14, p, bound) == Tabular(OpMemoryModel, None, p, bound)
  {
  }

  lemma DecodeFunctionEnd(p: seq<Word>, bound: Word)
    ensures Decode(56, p, bound) == Tabular(OpFunctionEnd, None, p, bound)
  {
  }

  lemma DecodeExecutionMode(p: seq<Word>, bound: Word)
    ensures Decode(16, p, bound) == Tabular(OpExecutionMode, None, p, bound)
  {
  }

  lemma DecodeOpDecorate(p: seq<Word>, bound: Word)
    ensures Decode(71, p, bound) == Tabular(OpDecorate, None, p, bound)
  {
    hide DecorationToken, BuiltinToken;
    assert Decode(71, p, bound) == DecodeDecoration(p, bound);
    if |p| >= 2 && IsId(p[0], bound) {
      var layout := Layout(OpDecorate, |p|, BuiltinWord(OpDecorate, p)).value;
      assert Read(layout, p) == [Id(p[0]), DecorationToken(p[1])] + DecorationValues(p[1], p[2..]);
    }
  }

  lemma DecodeOpMemberDecorate(p: seq<Word>, bound: Word)
    ensures Decode(72, p, bound) == Tabular(OpMemberDecorate, None, p, bound)
  {
    hide DecorationToken, BuiltinToken;
    assert Decode(72, p, bound) == DecodeMemberDecoration(p, bound);
    if |p| >= 3 && IsId(p[0], bound) {
      var layout := Layout(OpMemberDecorate, |p|, BuiltinWord(OpMemberDecorate, p)).value;
      assert Read(layout, p) == [Id(p[0]), Num(p[1]), DecorationToken(p[2])] + DecorationValues(p[2], p[3..]);
    }
  }

  lemma DecodeFunction(p: seq<Word>, bound: Word)
    ensures Decode(54, p, bound) ==
            if |p| < 2 || !IsId(p[1], bound) then Refused
            else Tabular(OpFunction, Some(p[1]), [p[0]] + p[2..], bound)
  {
    if |p| == 4 {
      var ws := [p[0]] + p[2..];
      assert ws == [p[0], p[2], p[3]];
      var fields := [AnId, ANumber, AnId];
      assert fields[0].AnId? && fields[2].AnId? && ws[0] == p[0] && ws[2] == p[3];
      assert IdsValid(fields, ws, bound) <==> IsId(p[0], bound) && IsId(p[3], bound);
      assert Read([AnId, ANumber, AnId], ws) == [Id(p[0]), Num(p[2]), Id(p[3])];
    }
  }

  lemma DecodeVariable(p: seq<Word>, bound: Word)
    ensures Decode(59, p, bound) ==
            if |p| < 2 || !IsId(p[1], bound) then Refused
            else Tabular(OpVariable, Some(p[1]), [p[0]] + p[2..], bound)
  {
    hide StorageToken;
    if 3 <= |p| <= 4 {
      var ws := [p[0]] + p[2..];
      var layout := [AnId, AStorage] + IdFields(|p| - 3);
      assert Layout(OpVariable, |ws|, false) == Some(layout);
      assert ws[0] == p[0] && ws[1] == p[2] && (|p| == 4 ==> ws[2] == p[3] && p[3..] == [p[3]]);
      assert AreIds(p[..2], bound) <==> IsId(p[0], bound) && IsId(p[1], bound);
      assert IdsValid(layout, ws, bound) <==> IsId(p[0], bound) && (|p| == 4 ==> IsId(p[3], bound));
      assert Read(layout, ws) == [Id(p[0]), StorageToken(p[2])] + SpirvBinary.Ids(p[3..]);
    }
  }

  lemma TypeByLayout(op: Opcode, p: seq<Word>, bound: Word)
    requires IsType(op) && |p| >= 1 && IsId(p[0], bound)
    ensures DecodeType(Code(op), p, bound) == Tabular(op, Some(p[0]), p[1..], bound)
  {
    hide StorageToken;
  }

  lemma DecodeOpType(op: Opcode, p: seq<Word>, bound: Word)
    requires IsType(op)
    ensures Decode(Code(op), p, bound) ==
            if |p| < 1 || !IsId(p[0], bound) then Refused else Tabular(op, Some(p[0]), p[1..], bound)
  {
    assert Decode(Code(op), p, bound) == DecodeType(Code(op), p, bound);
    hide Decode;
    if |p| >= 1 && IsId(p[0], bound) {
      TypeByLayout(op, p, bound);
    }
  }

  /** The same for every opcode without literal string, with the result taken from its place. */
  lemma DecodePlaced(op: Opcode, result: Option<nat>, ws: seq<Word>, bound: Word)
    requires Code(op) != 0 && !HasText(op)
    requires if HasResult(op) then result.Some? && 0 < result.value < bound else result.None?
    requires op.OpVariable? || op.OpFunction? ==> ws != []
    ensures Decode(Code(op), Placed(op, result, ws), bound) == Tabular(op, result, ws, bound)
  {
    hide Decode, Tabular;
    var p := Placed(op, result, ws);
    if op.OpCapability? {
      DecodeCapability(p, bound);
    } else if op.OpMemoryModel? {
      DecodeMemoryModel(p, bound);
    } else if op.OpExecutionMode? {
      DecodeExecutionMode(p, bound);
    } else if op.OpFunctionEnd? {
      DecodeFunctionEnd(p, bound);
    } else if op.OpDecorate? {
      DecodeOpDecorate(p, bound);
    } else if op.OpMemberDecorate? {
      DecodeOpMemberDecorate(p, bound);
    } else if op.OpFunction? {
      DecodeFunction(p, bound);
      assert [p[0]] + p[2..] == ws;
    } else if op.OpVariable? {
      DecodeVariable(p, bound);
      assert [p[0]] + p[2..] == ws;
    } else {
      DecodeOpType(op, p, bound);
      assert p[1..] == ws;
    }
  }

  /** A suitable decoration token is BuiltIn exactly when its word is. */
  lemma BuiltinAgrees(op: Opcode, args: seq<Token>, bound: Word)
    requires var layout := Layout(op, |args|, BuiltinAmong(op, args));
             layout.Some? && AllSuit(layout.value, args, bound)
    ensures BuiltinWord(op, Written(args)) == BuiltinAmong(op, args)
  {
    var layout := Layout(op, |args|, BuiltinAmong(op, args)).value;
    if op.OpDecorate? {
      assert Suits(layout[1], args[1], bound);
    } else if op.OpMemberDecorate? {
      assert Suits(layout[2], args[2], bound);
    }
  }

  lemma BuiltinReads(op: Opcode, ws: seq<Word>)
    requires Layout(op, |ws|, BuiltinWord(op, ws)).Some?
    requires |Layout(op, |ws|, BuiltinWord(op, ws)).value| == |ws|
    ensures BuiltinAmong(op, Read(Layout(op, |ws|, BuiltinWord(op, ws)).value, ws)) == BuiltinWord(op, ws)
  {
  }

  lemma DecodeWrittenPlain(x: Instr, bound: Word)
    requires Encodable(x, bound) && !HasText(x.op)
    ensures Decode(Code(x.op), Operands(x), bound) == Line(x)
  {
    hide Decode, Suits, TokenFor, WordFor;
    var layout := Layout(x.op, |x.args|, BuiltinAmong(x.op, x.args)).value;
    BuiltinAgrees(x.op, x.args, bound);
    ReadWritten(layout, x.args, bound);
    DecodePlaced(x.op, x.result, Written(x.args), bound);
  }

  lemma DecodeWrittenImport(x: Instr, bound: Word)
    requires Encodable(x, bound) && x.op.OpExtInstImport?
    ensures Decode(11, Operands(x), bound) == Line(x)
  {
    hide PackString, Literal;
    var name, p := x.args[0].t, Operands(x);
    LiteralOfPackString(name, []);
    assert PackString(name) + [] == PackString(name) == p[1..];
    assert Decode(11, p, bound) == DecodeImport(p, bound);
    assert x.args == [Text(name)];
  }

  lemma EntryIsDecoded(p: seq<Word>, bound: Word)
    ensures Decode(15, p, bound) == DecodeEntryPoint(p, bound)
  {
    hide DecodeEntryPoint;
  }

  /** An entry point's words: model, id, name and interface ids. */
  lemma EntryPointOf(model: Word, id: Word, name: seq<Byte>, ws: seq<Word>, bound: Word)
    requires PlainAscii(name) && IsId(id, bound) && AreIds(ws, bound)
    ensures DecodeEntryPoint([model, id] + PackString(name) + ws, bound) ==
            Line(Instr(None, OpEntryPoint, [Named1(model, 5, GLCompute), Id(id), Text(name)] + SpirvBinary.Ids(ws)))
  {
    hide PackString, Literal, PlainAscii, AreIds, SpirvBinary.Ids;
    var p := [model, id] + PackString(name) + ws;
    LiteralOfPackString(name, ws);
    assert p[2..] == PackString(name) + ws;
    assert p[2 + |PackString(name)|..] == ws;
  }

  lemma EntryWords(x: Instr, bound: Word)
    requires Encodable(x, bound) && x.op.OpEntryPoint?
    ensures var (m, id, ws) := (WordFor(x.args[0]), WordFor(x.args[1]), Written(x.args[3..]));
            && Operands(x) == [m, id] + PackString(x.args[2].t) + ws
            && Named1(m, 5, GLCompute) == x.args[0] && IsId(id, bound) && Id(id) == x.args[1]
  {
    hide PackString, WordFor;
    var head := x.args[..2];
    assert Suits(AModel, head[0], bound) by { assert Suits([AModel, AnId][0], head[0], bound); }
    assert Suits(AnId, head[1], bound) by { assert Suits([AModel, AnId][1], head[1], bound); }
    assert Written(head) == [WordFor(x.args[0]), WordFor(x.args[1])];
  }

  lemma EntryInterfaces(ids: seq<Token>, bound: Word)
    requires AllSuit(IdFields(|ids|), ids, bound)
    ensures AreIds(Written(ids), bound) && SpirvBinary.Ids(Written(ids)) == ids
  {
    hide Suits, WordFor;
    ReadWritten(IdFields(|ids|), ids, bound);
    assert SpirvBinary.Ids(Written(ids)) == Read(IdFields(|ids|), Written(ids));
  }

  lemma DecodeWrittenEntry(x: Instr, bound: Word)
    requires Encodable(x, bound) && x.op.OpEntryPoint?
    ensures Decode(15, Operands(x), bound) == Line(x)
  {
    EntryWords(x, bound);
    EntryInterfaces(x.args[3..], bound);
    EntryIsDecoded(Operands(x), bound);
    hide Decode, DecodeEntryPoint, Operands, PackString, Suits, WordFor, Written, AllSuit, SpirvBinary.Ids, Named1;
    EntryPointOf(WordFor(x.args[0]), WordFor(x.args[1]), x.args[2].t, Written(x.args[3..]), bound);
    assert x.args == [x.args[0], x.args[1], Text(x.args[2].t)] + x.args[3..];
  }

  /** The decoder reads back every instruction that can be written. */
  lemma DecodeWritten(x: Instr, bound: Word)
    requires Encodable(x, bound)
    ensures Decode(Code(x.op), Operands(x), bound) == Line(x)
  {
    hide Decode, Encodable;
    if x.op.OpExtInstImport? {
      DecodeWrittenImport(x, bound);
    } else if x.op.OpEntryPoint? {
      DecodeWrittenEntry(x, bound);
    } else {
      DecodeWrittenPlain(x, bound);
    }
  }

  lemma EncodedFirst(x: Instr, rest: seq<Word>, bound: Word)
    requires Encodable(x, bound)
    ensures var ws := EncodeInstr(x) + rest;
            && Framed(ws) && WordCount(ws[0]) == |EncodeInstr(x)| && DecodeFirst(ws, bound) == Line(x)
            && ws[|EncodeInstr(x)|..] == rest
  {
    hide Decode, ResultSuits, OperandsSuit, Operands;
    DecodeWritten(x, bound);
    CodeIsSmall(x.op);
    var ws := EncodeInstr(x) + rest;
    assert ws[1..|EncodeInstr(x)|] == Operands(x);
  }

  lemma CodeIsSmall(op: Opcode)
    ensures Code(op) < 0x1_0000
  {
  }

  /** Decoding a written module gives it back. */
  lemma {:induction false} DecodeEncode(p: seq<Instr>, bound: Word)
    requires AllEncodable(p, bound)
    ensures DecodeStream(Encode(p, bound), bound) == Some(p)
  {
    hide Decode, Encodable, Framed, DecodeFirst, EncodeInstr;
    if p != [] {
      DecodeEncode(p[1..], bound);
      EncodedFirst(p[0], Encode(p[1..], bound), bound);
      assert p == [p[0]] + p[1..];
    }
  }

  // ---------------------------------------------------------------- writing what was decoded

  /** The opcode of a decoded line is the one that was in the stream. */
  lemma LineHasCode(code: nat, p: seq<Word>, bound: Word)
    requires Decode(code, p, bound).Line?
    ensures Code(Decode(code, p, bound).instr.op) == code && code != 0
  {
    hide Literal;
  }

  /** Operands of a line, taken apart into the result and the rest. */
  lemma LineParts(op: Opcode, p: seq<Word>, bound: Word) returns (result: Option<nat>, ws: seq<Word>)
    requires Code(op) != 0 && !HasText(op) && Decode(Code(op), p, bound).Line?
    ensures p == Placed(op, result, ws) && (op.OpVariable? || op.OpFunction? ==> ws != [])
    ensures if HasResult(op) then result.Some? && 0 < result.value < bound else result.None?
  {
    hide Decode, Tabular;
    if op.OpFunction? {
      DecodeFunction(p, bound);
      result, ws := Some(p[1]), [p[0]] + p[2..];
    } else if op.OpVariable? {
      DecodeVariable(p, bound);
      result, ws := Some(p[1]), [p[0]] + p[2..];
    } else if IsType(op) {
      DecodeOpType(op, p, bound);
      result, ws := Some(p[0]), p[1..];
    } else {
      result, ws := None, p;
    }
  }

  lemma LineIsWrittenPlain(op: Opcode, p: seq<Word>, bound: Word)
    requires Code(op) != 0 && !HasText(op) && Decode(Code(op), p, bound).Line? && |p| < 0xffff
    ensures var x := Decode(Code(op), p, bound).instr; x.op == op ==> Encodable(x, bound) && Operands(x) == p
  {
    hide Decode, TokenFor, WordFor, Suits;
    var result, ws := LineParts(op, p, bound);
    DecodePlaced(op, result, ws, bound);
    var layout := Layout(op, |ws|, BuiltinWord(op, ws)).value;
    WrittenRead(layout, ws, bound);
    BuiltinReads(op, ws);
  }

  lemma LineIsWrittenImport(p: seq<Word>, bound: Word)
    requires Decode(11, p, bound).Line? && |p| < 0xffff
    ensures var x := Decode(11, p, bound).instr; Encodable(x, bound) && Operands(x) == p
  {
    hide PackString, Literal;
    assert Decode(11, p, bound) == DecodeImport(p, bound);
    PackStringOfLiteral(p[1..]);
    var (name, used) := Literal(p[1..]).value;
    assert p[1..][..used] == p[1..];
    assert p == [p[0]] + p[1..];
  }

  lemma LineIsWrittenEntry(p: seq<Word>, bound: Word)
    requires Decode(15, p, bound).Line? && |p| < 0xffff
    ensures var x := Decode(15, p, bound).instr; Encodable(x, bound) && Operands(x) == p
  {
    hide PackString, Literal, Suits, WordFor;
    assert Decode(15, p, bound) == DecodeEntryPoint(p, bound);
    var x := Decode(15, p, bound).instr;
    PackStringOfLiteral(p[2..]);
    var (name, used) := Literal(p[2..]).value;
    var head, rest := p[..2], p[2 + used..];
    WrittenRead([AModel, AnId], head, bound);
    WrittenRead(IdFields(|rest|), rest, bound);
    assert Read([AModel, AnId], head) == x.args[..2];
    assert Read(IdFields(|rest|), rest) == SpirvBinary.Ids(rest) == x.args[3..];
    assert p == head + p[2..][..used] + rest;
  }

  /** Every decoded instruction can be written, and as the same words. */
  lemma LineIsWritten(code: nat, p: seq<Word>, bound: Word)
    requires Decode(code, p, bound).Line? && |p| < 0xffff
    ensures var x := Decode(code, p, bound).instr;
            Code(x.op) == code && Encodable(x, bound) && Operands(x) == p
  {
    hide Decode, Encodable, Operands;
    LineHasCode(code, p, bound);
    var x := Decode(code, p, bound).instr;
    if code == 11 {
      LineIsWrittenImport(p, bound);
    } else if code == 15 {
      LineIsWrittenEntry(p, bound);
    } else {
      TextCodes(x.op);
      LineIsWrittenPlain(x.op, p, bound);
    }
  }

  lemma TextCodes(op: Opcode)
    ensures HasText(op) <==> Code(op) == 11 || Code(op) == 15
  {
  }

  /** What a stream decodes to can be written. */
  lemma {:induction false} DecodedIsEncodable(ws: seq<Word>, bound: Word)
    requires DecodeStream(ws, bound).Some?
    ensures AllEncodable(DecodeStream(ws, bound).value, bound)
    decreases |ws|
  {
    hide Decode, Encodable;
    if ws != [] {
      var n := WordCount(ws[0]);
      DecodedIsEncodable(ws[n..], bound);
      if DecodeFirst(ws, bound).Line? {
        LineIsWritten(OpcodeOf(ws[0]), ws[1..n], bound);
      }
    }
  }

  /** The modules that occur in some stream are exactly those that can be written. */
  lemma EncodableIsDecodable(p: seq<Instr>, bound: Word)
    ensures AllEncodable(p, bound) <==> exists ws :: DecodeStream(ws, bound) == Some(p)
  {
    if AllEncodable(p, bound) {
      DecodeEncode(p, bound);
    }
    if exists ws :: DecodeStream(ws, bound) == Some(p) {
      var ws :| DecodeStream(ws, bound) == Some(p);
      DecodedIsEncodable(ws, bound);
    }
  }

  // ---------------------------------------------------------------- files

  function Header(bound: Word): seq<Word> {
    [MAGIC, VERSION_1_3, 0, bound, 0]
  }

  /** A written module of admissible size is accepted exactly when it has the fixed ABI. */
  lemma WrittenFileIsAcceptedIffFixedAbi(p: seq<Instr>, bound: Word)
    requires AllEncodable(p, bound) && 2 <= bound <= 65536 && 4 * (5 + |Encode(p, bound)|) <= 65536
    ensures Contract(Pack(Header(bound) + Encode(p, bound))) <==> FixedAbi(p)
  {
    hide FixedAbi, DecodeStream, Encode, Unpack, AllEncodable;
    var words := Header(bound) + Encode(p, bound);
    UnpackPack(words);
    DecodeEncode(p, bound);
    assert words[5..] == Encode(p, bound);
    assert words[0] == MAGIC && words[1] == VERSION_1_3 && words[3] == bound && words[4] == 0;
  }
}
