/** The rejection fixtures: `mutate`, and the stager's independent check of a mutation. */
module SpirvNegative {
  import opened Octets
  import opened Sequences
  import opened SpirvWords
  import opened SpirvModule
  import opened SpirvBinary

  datatype Preset = MalformedInstruction | WrongBinding

  datatype Mutation = Mutation(wordOffset: int, before: int, after: int)

  // ---------------------------------------------------------------- where the binding words are

  /** The instruction at `at` is a four-word OpDecorate of kind Binding. */
  predicate BindingFrame(words: seq<Word>, at: nat) {
    at + 4 <= |words| && OpcodeOf(words[at]) == 71 && WordCount(words[at]) == 4 && words[at + 2] == 33
  }

  /** The positions of the operands of Binding decorations, from the instruction at `at` on. */
  function BindingHits(words: seq<Word>, at: nat): seq<nat>
    decreases |words| - at
  {
    if at >= |words| || WordCount(words[at]) == 0 || at + WordCount(words[at]) > |words| then []
    else (if BindingFrame(words, at) then [at + 3] else []) + BindingHits(words, at + WordCount(words[at]))
  }

  lemma {:induction false} HitsAreAhead(words: seq<Word>, at: nat, h: nat)
    requires h in BindingHits(words, at)
    ensures at + 3 <= h < |words|
    decreases |words| - at
  {
    var next := at + WordCount(words[at]);
    if h in BindingHits(words, next) {
      HitsAreAhead(words, next, h);
    }
  }

  lemma {:induction false} HitsDependOnTail(words: seq<Word>, words': seq<Word>, at: nat)
    requires |words| == |words'| && at <= |words| && words[at..] == words'[at..]
    ensures BindingHits(words, at) == BindingHits(words', at)
    decreases |words| - at
  {
    if at < |words| {
      assert forall i :: at <= i < |words| ==> words[i] == words[at..][i - at] == words'[i];
      var next := at + WordCount(words[at]);
      if at < next <= |words| {
        assert words[next..] == words'[next..];
        HitsDependOnTail(words, words', next);
      }
    }
  }

  /** Changing a binding operand leaves the positions of all binding operands as they were. */
  lemma {:induction false} HitsSurviveChange(words: seq<Word>, at: nat, h: nat, v: Word)
    requires at <= |words| && h in BindingHits(words, at) && h < |words|
    ensures BindingHits(words[h := v], at) == BindingHits(words, at)
    decreases |words| - at
  {
    HitsAreAhead(words, at, h);
    var words' := words[h := v];
    var next := at + WordCount(words[at]);
    if h in BindingHits(words, next) {
      HitsAreAhead(words, next, h);
      HitsSurviveChange(words, next, h, v);
    } else {
      assert h == at + 3 && next == at + 4;
      assert words[next..] == words'[next..];
      HitsDependOnTail(words, words', next);
    }
  }

  lemma DecodedBinding(code: nat, p: seq<Word>, bound: Word)
    requires Decode(code, p, bound).Line?
    ensures IsBinding(Decode(code, p, bound).instr) <==> code == 71 && |p| == 3 && p[1] == 33
    ensures IsBinding(Decode(code, p, bound).instr) ==> Decode(code, p, bound).instr.args[2].n == p[2]
  {
  }

  /** The binding operands that the first instruction at `at` contributes. */
  function FrameValues(words: seq<Word>, at: nat): seq<nat> {
    if BindingFrame(words, at) then [words[at + 3]] else []
  }

  lemma FirstBinding(words: seq<Word>, at: nat, bound: Word)
    requires at < |words| && DecodeStream(words[at..], bound).Some?
    ensures 0 < WordCount(words[at]) <= |words| - at
    ensures var rest := DecodeStream(words[at + WordCount(words[at])..], bound);
            && rest.Some?
            && BindingValues(DecodeStream(words[at..], bound).value) == FrameValues(words, at) + BindingValues(rest.value)
  {
    hide Decode;
    var ws := words[at..];
    var n := WordCount(ws[0]);
    assert ws[n..] == words[at + n..];
    var d := DecodeFirst(ws, bound);
    if d.Line? {
      DecodedBinding(OpcodeOf(ws[0]), ws[1..n], bound);
      var p := DecodeStream(ws[n..], bound).value;
      assert ([d.instr] + p)[1..] == p;
    } else {
      IgnoredIsNoDecoration(OpcodeOf(ws[0]), ws[1..n], bound);
    }
  }

  lemma IgnoredIsNoDecoration(code: nat, p: seq<Word>, bound: Word)
    requires Decode(code, p, bound).Ignored?
    ensures code != 71
  {
  }

  predicate InRange(words: seq<Word>, positions: seq<nat>) {
    forall i :: 0 <= i < |positions| ==> positions[i] < |words|
  }

  /** The words at the given positions. */
  function At(words: seq<Word>, positions: seq<nat>): seq<nat>
    requires InRange(words, positions)
  {
    if positions == [] then [] else [words[positions[0]]] + At(words, positions[1..])
  }

  lemma HitsInRange(words: seq<Word>, at: nat)
    ensures InRange(words, BindingHits(words, at))
  {
    var hits := BindingHits(words, at);
    forall i | 0 <= i < |hits| ensures hits[i] < |words| {
      HitsAreAhead(words, at, hits[i]);
    }
  }

  lemma AtFrame(words: seq<Word>, at: nat)
    requires at < |words| && 0 < WordCount(words[at]) <= |words| - at
    requires InRange(words, BindingHits(words, at)) && InRange(words, BindingHits(words, at + WordCount(words[at])))
    ensures At(words, BindingHits(words, at)) ==
            FrameValues(words, at) + At(words, BindingHits(words, at + WordCount(words[at])))
  {
    var rest := BindingHits(words, at + WordCount(words[at]));
    if BindingFrame(words, at) {
      assert ([at + 3] + rest)[1..] == rest;
    } else {
      assert [] + rest == rest;
    }
  }

  /** The binding operands in the stream are the binding values of the decoded module, in order. */
  lemma {:induction false} HitsAreBindingValues(words: seq<Word>, at: nat, bound: Word)
    requires at <= |words| && DecodeStream(words[at..], bound).Some?
    ensures InRange(words, BindingHits(words, at))
    ensures At(words, BindingHits(words, at)) == BindingValues(DecodeStream(words[at..], bound).value)
    decreases |words| - at
  {
    hide DecodeStream, BindingValues, WordCount, BindingFrame, BindingHits, At, FrameValues;
    HitsInRange(words, at);
    if at < |words| {
      FirstBinding(words, at, bound);
      HitsAreBindingValues(words, at + WordCount(words[at]), bound);
      AtFrame(words, at);
    } else {
      NoHitsAtEnd(words, bound);
    }
  }

  lemma NoHitsAtEnd(words: seq<Word>, bound: Word)
    ensures BindingHits(words, |words|) == [] && DecodeStream(words[|words|..], bound) == Some([])
    ensures At(words, []) == [] && BindingValues([]) == []
  {
  }

  lemma {:induction false} DecodedIsWellFramed(ws: seq<Word>, bound: Word)
    requires DecodeStream(ws, bound).Some?
    ensures WellFramed(ws)
  {
    if ws != [] {
      DecodedIsWellFramed(ws[WordCount(ws[0])..], bound);
    }
  }

  /** There is exactly one binding operand, and it is 0. */
  predicate OneBindingWord(words: seq<Word>) {
    |BindingHits(words, 5)| == 1 && BindingHits(words, 5)[0] < |words| && words[BindingHits(words, 5)[0]] == 0
  }

  lemma DecodedHasOneBindingWord(words: seq<Word>, bound: Word)
    requires 5 <= |words| && DecodeStream(words[5..], bound).Some?
    requires BindingValues(DecodeStream(words[5..], bound).value) == [0]
    ensures OneBindingWord(words) && WellFramed(words[5..])
  {
    hide DecodeStream, BindingValues, BindingHits, WellFramed;
    HitsAreBindingValues(words, 5, bound);
    assert At(words, BindingHits(words, 5))[0] == 0;
    DecodedIsWellFramed(words[5..], bound);
  }

  /** An accepted module has exactly one binding operand in its words, and it is 0. */
  lemma AcceptedHasOneBindingWord(words: seq<Word>)
    requires WordContract(words)
    ensures OneBindingWord(words)
    ensures |words| > 5 && WellFramed(words[5..])
  {
    hide FixedAbi, OneBindingWord, WellFramed, DecodeStream;
    FixedAbiHasOneBinding(DecodeStream(words[5..], words[3]).value);
    DecodedHasOneBindingWord(words, words[3]);
    BindingIsPastHeader(words);
  }

  lemma BindingIsPastHeader(words: seq<Word>)
    requires OneBindingWord(words)
    ensures 8 <= BindingHits(words, 5)[0] < |words|
  {
    HitsAreAhead(words, 5, BindingHits(words, 5)[0]);
  }

  // ---------------------------------------------------------------- the mutations

  /** The one-word change of a preset. */
  function MutationOf(words: seq<Word>, preset: Preset): Mutation
    requires OneBindingWord(words) && |words| > 5
  {
    match preset
    case MalformedInstruction => Mutation(5, words[5], words[5] % 0x1_0000)
    case WrongBinding => Mutation(BindingHits(words, 5)[0], 0, 1)
  }

  /** The words after a preset's change. */
  function Mutated(words: seq<Word>, preset: Preset): seq<Word>
    requires OneBindingWord(words) && |words| > 5
  {
    match preset
    case MalformedInstruction => words[5 := words[5] % 0x1_0000]
    case WrongBinding => words[BindingHits(words, 5)[0] := 1]
  }

  lemma WrongBindingIsRejected(words: seq<Word>)
    requires OneBindingWord(words)
    ensures !WordContract(words[BindingHits(words, 5)[0] := 1])
  {
    hide WordContract, BindingHits;
    var h := BindingHits(words, 5)[0];
    BindingIsPastHeader(words);
    HitsSurviveChange(words, 5, h, 1);
    if WordContract(words[h := 1]) {
      AcceptedHasOneBindingWord(words[h := 1]);
    }
  }

  lemma MalformedInstructionIsRejected(words: seq<Word>)
    requires |words| > 5
    ensures !WordContract(words[5 := words[5] % 0x1_0000])
  {
    hide FixedAbi;
    var changed := words[5 := words[5] % 0x1_0000];
    assert changed[5..][0] == words[5] % 0x1_0000;
    assert !Framed(changed[5..]);
  }

  /**
   * Both presets turn every accepted module into a rejected one by changing exactly one word, so
   * the "unexpectedly passed" branch of `mutate` is never taken.
   */
  lemma MutationIsOneRejectedWord(words: seq<Word>, preset: Preset)
    requires WordContract(words)
    ensures OneBindingWord(words) && |words| > 5
    ensures var m, changed := MutationOf(words, preset), Mutated(words, preset);
            && 5 <= m.wordOffset < |words| == |changed|
            && m.before == words[m.wordOffset] && m.after == changed[m.wordOffset] && m.before != m.after
            && (forall i :: 0 <= i < |words| && i != m.wordOffset ==> changed[i] == words[i])
            && !WordContract(changed)
  {
    hide WordContract, BindingHits;
    AcceptedHasOneBindingWord(words);
    BindingIsPastHeader(words);
    WrongBindingIsRejected(words);
    MalformedInstructionIsRejected(words);
    assert words[5..][0] == words[5] && WordCount(words[5]) > 0;
  }

  /** `mutate`: None stands for its ValueErrors. */
  method Mutate(data: seq<Byte>, preset: Preset) returns (r: Option<(seq<Byte>, Mutation)>)
    ensures r.Some? <==> Contract(data)
    ensures r.Some? ==>
              && OneBindingWord(Unpack(data)) && |data| > 20
              && r.value == (Pack(Mutated(Unpack(data), preset)), MutationOf(Unpack(data), preset))
              && |r.value.0| == |data| && !Contract(r.value.0)
  {
    hide WordContract, BindingHits, WellFramed;
    var accepted := BinaryContract(data);
    if !accepted {
      return None;
    }
    ghost var original := Unpack(data);
    var words := Unpack(data);
    MutationIsOneRejectedWord(words, preset);
    AcceptedHasOneBindingWord(words);
    var offset: nat;
    var before: Word;
    if preset.MalformedInstruction? {
      offset := 5;
      before := words[offset];
      words := words[offset := words[offset] % 0x1_0000];
    } else {
      var hits := FindBindings(words);
      if |hits| != 1 || words[hits[0]] != 0 {
        return None;
      }
      offset := hits[0];
      before := words[offset];
      words := words[offset := 1];
    }
    assert words == Mutated(original, preset);
    var changed := Pack(words);
    UnpackPack(words);
    if changed == data {
      return None;
    }
    var passed := BinaryContract(changed);
    if passed {
      return None;
    }
    return Some((changed, Mutation(offset, before, words[offset])));
  }

  lemma WalkStep(words: seq<Word>, at: nat)
    requires at < |words|
    ensures WellFramed(words[at..]) <==>
              && 0 < WordCount(words[at]) <= |words| - at && WellFramed(words[at + WordCount(words[at])..])
    ensures 0 < WordCount(words[at]) <= |words| - at ==>
              BindingHits(words, at) ==
              (if BindingFrame(words, at) then [at + 3] else []) + BindingHits(words, at + WordCount(words[at]))
  {
    if 0 < WordCount(words[at]) <= |words| - at {
      assert words[at..][WordCount(words[at])..] == words[at + WordCount(words[at])..];
    }
  }

  /** The walk over the instructions of an accepted module that collects binding operands. */
  method FindBindings(words: seq<Word>) returns (hits: seq<nat>)
    requires |words| >= 5 && WellFramed(words[5..])
    ensures hits == BindingHits(words, 5)
  {
    hide WellFramed, BindingHits, WordCount, OpcodeOf;
    hits := [];
    var at := 5;
    WalkEnd(words);
    while at < |words|
      invariant 5 <= at <= |words| && WellFramed(words[at..])
      invariant hits + BindingHits(words, at) == BindingHits(words, 5)
      decreases |words| - at
    {
      WalkStep(words, at);
      var count := WordCount(words[at]);
      if OpcodeOf(words[at]) == 71 && count == 4 && words[at + 2] == 33 {
        hits := hits + [at + 3];
      }
      at := at + count;
    }
  }

  lemma WalkEnd(words: seq<Word>)
    ensures BindingHits(words, |words|) == [] && WellFramed(words[|words|..])
  {
  }

  // ---------------------------------------------------------------- the stager's check

  /** What `validate_host_receipt` requires of a negative candidate's code, parent code and descriptor. */
  predicate StagerAccepts(original: seq<Byte>, code: seq<Byte>, codeBytes: int, m: Mutation, preset: Preset) {
    && 0 < |original| <= 65536 && 0 < codeBytes <= 65536 && codeBytes % 4 == 0
    && |original| == |code| == codeBytes
    && 5 <= m.wordOffset < |code| / 4
    && 0 <= m.before <= 0xffff_ffff && 0 <= m.after <= 0xffff_ffff && m.before != m.after
    && var at := 4 * m.wordOffset;
    && WordOf(original[at..at + 4]) == m.before
    && original[..at] + WordBytes(m.after) + original[at + 4..] == code
    && match preset
       case MalformedInstruction =>
         m.wordOffset == 5 && m.before / 0x1_0000 > 0 && m.after == m.before % 0x1_0000
       case WrongBinding =>
         var words := Unpack(original);
         WellFramed(words[5..]) && BindingHits(words, 5) == [m.wordOffset] && m.before == 0 && m.after == 1
  }

  /** The stager's own walk: framing is required, and the binding operands are collected. */
  method StagerBindings(words: seq<Word>) returns (framed: bool, bindings: seq<nat>)
    requires |words| >= 5
    ensures framed <==> WellFramed(words[5..])
    ensures framed ==> bindings == BindingHits(words, 5)
  {
    hide WellFramed, BindingHits, WordCount, OpcodeOf;
    bindings := [];
    var at := 5;
    WalkEnd(words);
    while at < |words|
      invariant 5 <= at <= |words|
      invariant WellFramed(words[5..]) <==> WellFramed(words[at..])
      invariant bindings + BindingHits(words, at) == BindingHits(words, 5)
      decreases |words| - at
    {
      WalkStep(words, at);
      var count := WordCount(words[at]);
      if count == 0 || at + count > |words| {
        return false, bindings;
      }
      if OpcodeOf(words[at]) == 71 && count == 4 && words[at + 2] == 33 {
        bindings := bindings + [at + 3];
      }
      at := at + count;
    }
    return true, bindings;
  }

  method ValidateMutation(original: seq<Byte>, code: seq<Byte>, codeBytes: int, m: Mutation, preset: Preset)
    returns (ok: bool)
    ensures ok <==> StagerAccepts(original, code, codeBytes, m, preset)
  {
    if !(0 < |original| <= 65536 && 0 < codeBytes <= 65536 && codeBytes % 4 == 0) {
      return false;
    }
    if !(|original| == |code| == codeBytes && 5 <= m.wordOffset < |code| / 4
         && 0 <= m.before <= 0xffff_ffff && 0 <= m.after <= 0xffff_ffff && m.before != m.after) {
      return false;
    }
    var at := 4 * m.wordOffset;
    if WordOf(original[at..at + 4]) != m.before || original[..at] + WordBytes(m.after) + original[at + 4..] != code {
      return false;
    }
    if preset.MalformedInstruction? {
      return m.wordOffset == 5 && m.before / 0x1_0000 > 0 && m.after == m.before % 0x1_0000;
    }
    var framed, bindings := StagerBindings(Unpack(original));
    return framed && bindings == [m.wordOffset] && m.before == 0 && m.after == 1;
  }

  /** The stager accepts exactly what `mutate` produces from the same accepted parent. */
  lemma StagerAcceptsExactlyMutate(original: seq<Byte>, code: seq<Byte>, m: Mutation, preset: Preset)
    requires Contract(original)
    ensures OneBindingWord(Unpack(original)) && |original| > 20
    ensures StagerAccepts(original, code, |original|, m, preset) <==>
              code == Pack(Mutated(Unpack(original), preset)) && m == MutationOf(Unpack(original), preset)
  {
    hide WordContract, BindingHits, WordOf, WordBytes, Pack, Unpack, WellFramed;
    var words := Unpack(original);
    AcceptedHasOneBindingWord(words);
    FirstWordHasLength(words);
    MutationIsOneRejectedWord(words, preset);
    BindingIsPastHeader(words);
    if 5 <= m.wordOffset < |words| {
      UnpackAt(original, m.wordOffset);
      if 0 <= m.after <= 0xffff_ffff {
        PatchIsUpdate(original, m.wordOffset, m.after);
      }
    }
  }

  /**
   * What the stager accepts, for any parent, in words: the sizes agree and are in range, exactly the
   * described word behind the header differs, and it is the first instruction's word with its count
   * removed, or the only Binding operand of a framed stream turned from 0 to 1.
   */
  lemma StagerAcceptsInWords(original: seq<Byte>, code: seq<Byte>, codeBytes: int, m: Mutation, preset: Preset)
    ensures StagerAccepts(original, code, codeBytes, m, preset) <==>
            && codeBytes == |original| == |code| && 24 <= codeBytes <= 65536 && codeBytes % 4 == 0
            && 5 <= m.wordOffset < |code| / 4
            && 0 <= m.after < 0x1_0000_0000 && m.before != m.after
            && m.before == Unpack(original)[m.wordOffset]
            && Unpack(code) == Unpack(original)[m.wordOffset := m.after]
            && (preset.MalformedInstruction? ==>
                  m.wordOffset == 5 && CountGone(m.before, m.after))
            && (preset.WrongBinding? ==>
                  && WellFramed(Unpack(original)[5..]) && BindingHits(Unpack(original), 5) == [m.wordOffset]
                  && m.before == 0 && m.after == 1)
  {
    hide BindingHits, WordOf, WordBytes, Pack, Unpack, WellFramed, CountGone;
    if |original| == |code| && |original| % 4 == 0 && 5 <= m.wordOffset < |code| / 4 && 0 <= m.after < 0x1_0000_0000 {
      PatchInWords(original, code, m.wordOffset, m.after);
      CountRemoved(m.before, m.after);
    }
  }

  lemma PatchInWords(original: seq<Byte>, code: seq<Byte>, i: nat, w: Word)
    requires |original| == |code| && |original| % 4 == 0 && 4 * i < |original|
    ensures Unpack(original)[i] == WordOf(original[4 * i..4 * i + 4])
    ensures original[..4 * i] + WordBytes(w) + original[4 * i + 4..] == code <==> Unpack(code) == Unpack(original)[i := w]
  {
    hide WordOf, WordBytes, Pack, Unpack;
    UnpackAt(original, i);
    PatchIsUpdate(original, i, w);
    PackUnpack(code);
    UnpackPack(Unpack(original)[i := w]);
  }

  lemma CountRemoved(before: int, after: int)
    ensures 0 <= before && 0 <= after && before != after ==>
              (before / 0x1_0000 > 0 && after == before % 0x1_0000 <==> CountGone(before, after))
  {
  }

  /** `after` is the low half of `before` alone. */
  predicate CountGone(before: int, after: int) {
    after < 0x1_0000 && (before - after) % 0x1_0000 == 0
  }

  lemma FirstWordHasLength(words: seq<Word>)
    requires |words| > 5 && WellFramed(words[5..])
    ensures words[5] / 0x1_0000 > 0
  {
    assert words[5..][0] == words[5];
  }

  /** No negative candidate that the stager accepts satisfies the host contract, whatever its parent is. */
  lemma StagedNegativeIsInvalid(
    original: seq<Byte>, code: seq<Byte>, codeBytes: int, m: Mutation, preset: Preset)
    requires StagerAccepts(original, code, codeBytes, m, preset)
    ensures !Contract(code) && code != original && |code| == |original|
  {
    hide WordContract, BindingHits, WordOf, WordBytes, Pack, Unpack, WellFramed;
    var words := Unpack(original);
    UnpackAt(original, m.wordOffset);
    PatchIsUpdate(original, m.wordOffset, m.after);
    var changed := words[m.wordOffset := m.after];
    UnpackPack(changed);
    assert changed[m.wordOffset] != words[m.wordOffset];
    if preset.MalformedInstruction? {
      MalformedInstructionIsRejected(words);
    } else {
      WrongBindingIsRejected(words);
    }
  }
}
