/** `binary_contract`: decoding the interface instructions of a SPIR-V word stream. */
module SpirvBinary {
  import opened Octets
  import opened Sequences
  import opened SpirvWords
  import opened SpirvModule
  import SpirvReflect

  const MAGIC: Word := 0x0723_0203
  const VERSION_1_3: Word := 0x0001_0300

  /** What one raw instruction contributes. */
  datatype Decoded = Refused | Ignored | Line(instr: Instr)

  function WordCount(w: Word): nat { w / 0x1_0000 }

  function OpcodeOf(w: Word): nat { w % 0x1_0000 }

  // ---------------------------------------------------------------- operands

  predicate IsId(v: Word, bound: Word) {
    0 < v < bound
  }

  predicate AreIds(vs: seq<Word>, bound: Word) {
    forall i :: 0 <= i < |vs| ==> IsId(vs[i], bound)
  }

  function Ids(vs: seq<Word>): seq<Token> {
    seq(|vs|, i requires 0 <= i < |vs| => Id(vs[i]))
  }

  function Nums(vs: seq<Word>): seq<Token> {
    seq(|vs|, i requires 0 <= i < |vs| => Num(vs[i]))
  }

  function StorageToken(v: Word): Token {
    if v == 1 then Sym(Input) else if v == 6 then Sym(Private) else if v == 7 then Sym(Function)
    else if v == 9 then Sym(PushConstant) else if v == 12 then Sym(StorageBuffer) else Num(v)
  }

  function DecorationToken(v: Word): Token {
    if v == 0 then Sym(RelaxedPrecision) else if v == 2 then Sym(Block) else if v == 6 then Sym(ArrayStride)
    else if v == 11 then Sym(BuiltIn) else if v == 19 then Sym(Restrict) else if v == 20 then Sym(Aliased)
    else if v == 23 then Sym(Coherent) else if v == 24 then Sym(NonWritable) else if v == 25 then Sym(NonReadable)
    else if v == 33 then Sym(Binding) else if v == 34 then Sym(DescriptorSet) else if v == 35 then Sym(Offset)
    else if v == 42 then Sym(NoContraction) else Num(v)
  }

  function BuiltinToken(v: Word): Token {
    if v == 24 then Sym(NumWorkgroups) else if v == 25 then Sym(WorkgroupSize) else if v == 26 then Sym(WorkgroupId)
    else if v == 27 then Sym(LocalInvocationId) else if v == 28 then Sym(GlobalInvocationId)
    else if v == 29 then Sym(LocalInvocationIndex) else Num(v)
  }

  function DecorationValues(kind: Word, vs: seq<Word>): (r: seq<Token>)
    ensures |r| == |vs|
  {
    seq(|vs|, i requires 0 <= i < |vs| => if kind == 11 then BuiltinToken(vs[i]) else Num(vs[i]))
  }

  // ---------------------------------------------------------------- one instruction

  /** The keys of `OP_NAMES`. */
  predicate Named(code: nat) {
    code in {10, 11, 14, 15, 16, 17} || 19 <= code <= 33 || code in {54, 56, 59} || 71 <= code <= 75 || code == 331
  }

  predicate Unsupported(code: nat) {
    code in {10, 73, 74, 75, 331} || 25 <= code <= 27 || code == 31
  }

  function TypeOpcode(code: nat): Opcode {
    if code == 19 then OpTypeVoid else if code == 20 then OpTypeBool else if code == 21 then OpTypeInt
    else if code == 22 then OpTypeFloat else if code == 23 then OpTypeVector else if code == 24 then OpTypeMatrix
    else if code == 28 then OpTypeArray else if code == 29 then OpTypeRuntimeArray else if code == 30 then OpTypeStruct
    else if code == 32 then OpTypePointer else OpTypeFunction
  }

  /** The operand counts that `exact` prescribes, result included; other types take any number. */
  predicate TypeArity(code: nat, n: nat) {
    && n >= 1
    && (code == 19 || code == 20 ==> n == 1) && (code == 22 || code == 29 ==> n == 2)
    && (code in {21, 23, 24, 28, 32} ==> n == 3)
  }

  function DecodeType(code: nat, p: seq<Word>, bound: Word): Decoded {
    if !TypeArity(code, |p|) || !IsId(p[0], bound) then Refused
    else
      var result, op := Some(p[0]), TypeOpcode(code);
      if code == 21 || code == 22 then Line(Instr(result, op, Nums(p[1..])))
      else if code == 23 || code == 24 then
        if IsId(p[1], bound) then Line(Instr(result, op, [Id(p[1]), Num(p[2])])) else Refused
      else if code == 32 then
        if IsId(p[2], bound) then Line(Instr(result, op, [StorageToken(p[1]), Id(p[2])])) else Refused
      else if AreIds(p[1..], bound) then Line(Instr(result, op, Ids(p[1..])))
      else Refused
  }

  function DecodeDecoration(p: seq<Word>, bound: Word): Decoded {
    if |p| < 2 || !IsId(p[0], bound) then Refused
    else Line(Instr(None, OpDecorate, [Id(p[0]), DecorationToken(p[1])] + DecorationValues(p[1], p[2..])))
  }

  function DecodeMemberDecoration(p: seq<Word>, bound: Word): Decoded {
    if |p| < 3 || !IsId(p[0], bound) then Refused
    else Line(Instr(None, OpMemberDecorate,
                    [Id(p[0]), Num(p[1]), DecorationToken(p[2])] + DecorationValues(p[2], p[3..])))
  }

  function DecodeEntryPoint(p: seq<Word>, bound: Word): Decoded {
    if |p| < 3 then Refused
    else match Literal(p[2..])
      case None => Refused
      case Some((name, used)) =>
        if !IsId(p[1], bound) || !AreIds(p[2 + used..], bound) then Refused
        else Line(Instr(None, OpEntryPoint,
                        [if p[0] == 5 then Sym(GLCompute) else Num(p[0]), Id(p[1]), Text(name)] + Ids(p[2 + used..])))
  }

  function DecodeImport(p: seq<Word>, bound: Word): Decoded {
    if |p| < 2 || !IsId(p[0], bound) then Refused
    else match Literal(p[1..])
      case None => Refused
      case Some((name, used)) =>
        if used != |p| - 1 then Refused else Line(Instr(Some(p[0]), OpExtInstImport, [Text(name)]))
  }

  /** One instruction with opcode `code` and operands `p`, ids bounded by `bound`. */
  function Decode(code: nat, p: seq<Word>, bound: Word): Decoded {
    if 48 <= code <= 52 then Refused
    else if !Named(code) then Ignored
    else if Unsupported(code) then Refused
    else if code == 17 then
      if |p| == 1 then Line(Instr(None, OpCapability, [if p[0] == 1 then Sym(Shader) else Num(p[0])])) else Refused
    else if code == 14 then
      if |p| == 2 then
        Line(Instr(None, OpMemoryModel, [if p[0] == 0 then Sym(Logical) else Num(p[0]),
                                         if p[1] == 1 then Sym(GLSL450) else Num(p[1])]))
      else Refused
    else if code == 15 then DecodeEntryPoint(p, bound)
    else if code == 16 then
      if |p| == 5 && IsId(p[0], bound) then
        Line(Instr(None, OpExecutionMode,
                   [Id(p[0]), if p[1] == 17 then Sym(LocalSize) else Num(p[1])] + Nums(p[2..])))
      else Refused
    else if code == 11 then DecodeImport(p, bound)
    else if code == 71 then DecodeDecoration(p, bound)
    else if code == 72 then DecodeMemberDecoration(p, bound)
    else if 19 <= code <= 33 then DecodeType(code, p, bound)
    else if code == 59 then
      if 3 <= |p| <= 4 && AreIds(p[..2], bound) && AreIds(p[3..], bound) then
        Line(Instr(Some(p[1]), OpVariable, [Id(p[0]), StorageToken(p[2])] + Ids(p[3..])))
      else Refused
    else if code == 54 then
      if |p| == 4 && IsId(p[0], bound) && IsId(p[1], bound) && IsId(p[3], bound) then
        Line(Instr(Some(p[1]), OpFunction, [Id(p[0]), Num(p[2]), Id(p[3])]))
      else Refused
    else if |p| == 0 then Line(Instr(None, OpFunctionEnd, []))
    else Refused
  }

  // ---------------------------------------------------------------- the stream

  /** The first instruction of `ws` lies within it. */
  predicate Framed(ws: seq<Word>) {
    ws != [] && 0 < WordCount(ws[0]) <= |ws|
  }

  function DecodeFirst(ws: seq<Word>, bound: Word): Decoded
    requires Framed(ws)
  {
    Decode(OpcodeOf(ws[0]), ws[1..WordCount(ws[0])], bound)
  }

  function Prepend(d: Decoded, rest: Option<seq<Instr>>): Option<seq<Instr>> {
    match (d, rest)
    case (Refused, _) => None
    case (_, None) => None
    case (Ignored, Some(p)) => Some(p)
    case (Line(x), Some(p)) => Some([x] + p)
  }

  /** The interface instructions of the stream `ws`, or None when framing or an instruction is refused. */
  function DecodeStream(ws: seq<Word>, bound: Word): Option<seq<Instr>> {
    if ws == [] then Some([])
    else if !Framed(ws) then None
    else Prepend(DecodeFirst(ws, bound), DecodeStream(ws[WordCount(ws[0])..], bound))
  }

  predicate HeaderOk(words: seq<Word>) {
    |words| >= 5 && words[0] == MAGIC && words[1] == VERSION_1_3 && words[4] == 0 && 2 <= words[3] <= 65536
  }

  /** `binary_contract` accepts `data`. */
  ghost predicate Contract(data: seq<Byte>) {
    && 20 <= |data| <= 65536 && |data| % 4 == 0
    && WordContract(Unpack(data))
  }

  ghost predicate WordContract(words: seq<Word>) {
    && HeaderOk(words)
    && DecodeStream(words[5..], words[3]).Some?
    && FixedAbi(DecodeStream(words[5..], words[3]).value)
  }

  function Appended(lines: seq<Instr>, rest: Option<seq<Instr>>): Option<seq<Instr>> {
    match rest
    case None => None
    case Some(p) => Some(lines + p)
  }

  lemma StreamStep(ws: seq<Word>, bound: Word, lines: seq<Instr>)
    requires Framed(ws)
    ensures var rest := DecodeStream(ws[WordCount(ws[0])..], bound);
            Appended(lines, DecodeStream(ws, bound)) ==
            match DecodeFirst(ws, bound)
            case Refused => None
            case Ignored => Appended(lines, rest)
            case Line(x) => Appended(lines + [x], rest)
  {
    hide Decode;
    var rest := DecodeStream(ws[WordCount(ws[0])..], bound);
    if DecodeFirst(ws, bound).Line? && rest.Some? {
      assert lines + ([DecodeFirst(ws, bound).instr] + rest.value) == lines + [DecodeFirst(ws, bound).instr] + rest.value;
    }
  }

  lemma AppendedNothing(rest: Option<seq<Instr>>)
    ensures Appended([], rest) == rest
  {
    assert rest.Some? ==> [] + rest.value == rest.value;
  }

  lemma StreamBroken(ws: seq<Word>, bound: Word, lines: seq<Instr>)
    requires ws != [] && !Framed(ws)
    ensures Appended(lines, DecodeStream(ws, bound)) == None
  {
  }

  lemma StreamEnd(bound: Word, lines: seq<Instr>)
    ensures Appended(lines, DecodeStream([], bound)) == Some(lines)
  {
    assert lines + [] == lines;
  }

  /** `binary_contract`: walk the framed instructions, collect the interface lines, reflect them. */
  method BinaryContract(data: seq<Byte>) returns (ok: bool)
    ensures ok <==> Contract(data)
  {
    hide FixedAbi, DecodeFirst, DecodeStream, Appended;
    if !(20 <= |data| <= 65536 && |data| % 4 == 0) {
      return false;
    }
    var words := Unpack(data);
    if !HeaderOk(words) {
      return false;
    }
    var lines: seq<Instr> := [];
    var at := 5;
    AppendedNothing(DecodeStream(words[5..], words[3]));
    while at < |words|
      invariant 5 <= at <= |words|
      invariant DecodeStream(words[5..], words[3]) == Appended(lines, DecodeStream(words[at..], words[3]))
    {
      var ws := words[at..];
      if !Framed(ws) {
        StreamBroken(ws, words[3], lines);
        return false;
      }
      var count := WordCount(words[at]);
      StreamStep(ws, words[3], lines);
      assert ws[count..] == words[at + count..];
      match DecodeFirst(ws, words[3]) {
        case Refused => return false;
        case Ignored =>
        case Line(x) => lines := lines + [x];
      }
      at := at + count;
    }
    assert words[at..] == [];
    StreamEnd(words[3], lines);
    ok := SpirvReflect.Reflect(lines);
  }

  // ---------------------------------------------------------------- instructions outside the interface

  /** `ws` splits into whole instructions. */
  predicate WellFramed(ws: seq<Word>) {
    ws == [] || (Framed(ws) && WellFramed(ws[WordCount(ws[0])..]))
  }

  /** One whole instruction that is not part of the interface. */
  predicate OutsideInterface(x: seq<Word>) {
    x != [] && WordCount(x[0]) == |x| && !Named(OpcodeOf(x[0])) && !(48 <= OpcodeOf(x[0]) <= 52)
  }

  lemma FirstOfConcat(a: seq<Word>, b: seq<Word>, bound: Word)
    requires Framed(a)
    ensures Framed(a + b) && (a + b)[0] == a[0] && 0 < WordCount(a[0]) <= |a|
    ensures DecodeFirst(a + b, bound) == DecodeFirst(a, bound)
    ensures (a + b)[WordCount(a[0])..] == a[WordCount(a[0])..] + b
  {
    hide Decode;
    assert (a + b)[1..WordCount(a[0])] == a[1..WordCount(a[0])];
  }

  lemma {:induction false} StreamConcat(a: seq<Word>, b: seq<Word>, bound: Word)
    requires WellFramed(a)
    ensures DecodeStream(a + b, bound) ==
            if DecodeStream(a, bound).None? then None
            else Appended(DecodeStream(a, bound).value, DecodeStream(b, bound))
    decreases |a|
  {
    hide Decode, DecodeFirst, Framed;
    if a == [] {
      assert a + b == b;
      AppendedNothing(DecodeStream(b, bound));
    } else {
      var n := WordCount(a[0]);
      FirstOfConcat(a, b, bound);
      var rest := a[n..];
      StreamConcat(rest, b, bound);
      var d := DecodeFirst(a, bound);
      if d.Line? && DecodeStream(rest, bound).Some? && DecodeStream(b, bound).Some? {
        assert [d.instr] + (DecodeStream(rest, bound).value + DecodeStream(b, bound).value)
               == [d.instr] + DecodeStream(rest, bound).value + DecodeStream(b, bound).value;
      }
    }
  }

  /** Inserting or removing such an instruction at an instruction boundary never changes the verdict. */
  lemma OutsideInstructionsAreInvisible(header: seq<Word>, a: seq<Word>, x: seq<Word>, b: seq<Word>)
    requires |header| == 5 && WellFramed(a) && OutsideInterface(x)
    ensures WordContract(header + a + x + b) <==> WordContract(header + a + b)
  {
    hide FixedAbi, Decode, DecodeStream, WellFramed;
    var bound := header[3];
    var with, without := header + a + x + b, header + a + b;
    assert with[5..] == a + (x + b) && without[5..] == a + b;
    StreamConcat(a, x + b, bound);
    StreamConcat(a, b, bound);
    assert (x + b)[|x|..] == b && (x + b)[1..|x|] == x[1..];
    IgnoredFirst(x + b, bound);
  }

  lemma IgnoredFirst(ws: seq<Word>, bound: Word)
    requires Framed(ws) && !Named(OpcodeOf(ws[0])) && !(48 <= OpcodeOf(ws[0]) <= 52)
    ensures DecodeStream(ws, bound) == DecodeStream(ws[WordCount(ws[0])..], bound)
  {
  }

  /** The same for the byte files, within the size bound. */
  lemma OutsideInstructionsAreInvisibleInFiles(header: seq<Word>, a: seq<Word>, x: seq<Word>, b: seq<Word>)
    requires |header| == 5 && WellFramed(a) && OutsideInterface(x)
    requires 4 * |header + a + x + b| <= 65536
    ensures Contract(Pack(header + a + x + b)) <==> Contract(Pack(header + a + b))
  {
    hide WordContract, WellFramed;
    UnpackPack(header + a + x + b);
    UnpackPack(header + a + b);
    OutsideInstructionsAreInvisible(header, a, x, b);
  }
}
