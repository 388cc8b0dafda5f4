/** Little-endian words and the literal strings of the SPIR-V format. */
module SpirvWords {
  import opened Octets
  import opened Sequences

  type Word = x: nat | x < 0x1_0000_0000

  function WordBytes(w: Word): (b: seq<Byte>)
    ensures |b| == 4
  {
    [w % 0x100, w / 0x100 % 0x100, w / 0x1_0000 % 0x100, w / 0x100_0000]
  }

  function WordOf(b: seq<Byte>): Word
    requires |b| == 4
  {
    var b0: int, b1: int, b2: int, b3: int := b[0], b[1], b[2], b[3];
    b0 + 0x100 * b1 + 0x1_0000 * b2 + 0x100_0000 * b3
  }

  /** `struct.pack('<' + 'I' * n, ...)`. */
  function Pack(words: seq<Word>): (bytes: seq<Byte>)
    ensures |bytes| == 4 * |words|
  {
    if words == [] then [] else WordBytes(words[0]) + Pack(words[1..])
  }

  /** `struct.unpack('<' + 'I' * n, ...)`. */
  function Unpack(bytes: seq<Byte>): (words: seq<Word>)
    requires |bytes| % 4 == 0
    ensures 4 * |words| == |bytes|
  {
    if bytes == [] then [] else [WordOf(bytes[..4])] + Unpack(bytes[4..])
  }

  lemma WordRoundTrip(w: Word)
    ensures WordOf(WordBytes(w)) == w
  {
    assert w / 0x1_0000 == w / 0x100 / 0x100 && w / 0x100_0000 == w / 0x100 / 0x100 / 0x100;
  }

  lemma BytesRoundTrip(b: seq<Byte>)
    requires |b| == 4
    ensures WordBytes(WordOf(b)) == b
  {
    DigitsRoundTrip(b[0], b[1], b[2], b[3]);
  }

  lemma DigitsRoundTrip(b0: int, b1: int, b2: int, b3: int)
    requires 0 <= b0 < 0x100 && 0 <= b1 < 0x100 && 0 <= b2 < 0x100 && 0 <= b3 < 0x100
    ensures var w := b0 + 0x100 * b1 + 0x1_0000 * b2 + 0x100_0000 * b3;
            w % 0x100 == b0 && w / 0x100 % 0x100 == b1 && w / 0x1_0000 % 0x100 == b2 && w / 0x100_0000 == b3
  {
    var w := b0 + 0x100 * b1 + 0x1_0000 * b2 + 0x100_0000 * b3;
    assert w / 0x100 == b1 + 0x100 * b2 + 0x1_0000 * b3;
    assert w / 0x1_0000 == b2 + 0x100 * b3;
  }

  lemma {:induction false} UnpackPack(words: seq<Word>)
    ensures Unpack(Pack(words)) == words
  {
    if words != [] {
      var b := Pack(words);
      WordRoundTrip(words[0]);
      UnpackPack(words[1..]);
      assert b[..4] == WordBytes(words[0]) && b[4..] == Pack(words[1..]);
    }
  }

  lemma {:induction false} PackUnpack(bytes: seq<Byte>)
    requires |bytes| % 4 == 0
    ensures Pack(Unpack(bytes)) == bytes
  {
    if bytes != [] {
      var w := Unpack(bytes);
      BytesRoundTrip(bytes[..4]);
      PackUnpack(bytes[4..]);
      assert w[1..] == Unpack(bytes[4..]);
    }
  }

  lemma {:induction false} PackConcat(a: seq<Word>, b: seq<Word>)
    ensures Pack(a + b) == Pack(a) + Pack(b)
  {
    hide WordBytes;
    if a == [] {
      assert a + b == b;
    } else {
      PackConcat(a[1..], b);
      assert (a + b)[0] == a[0] && (a + b)[1..] == a[1..] + b;
      assert WordBytes(a[0]) + (Pack(a[1..]) + Pack(b)) == WordBytes(a[0]) + Pack(a[1..]) + Pack(b);
    }
  }

  /** Overwriting one word of the stream overwrites its four bytes and nothing else. */
  lemma PackUpdate(words: seq<Word>, i: nat, w: Word)
    requires i < |words|
    ensures Pack(words[i := w]) == Pack(words)[..4 * i] + WordBytes(w) + Pack(words)[4 * i + 4..]
  {
    var a, b := words[..i], words[i + 1..];
    assert words[i := w] == a + ([w] + b) && words == a + ([words[i]] + b);
    PackConcat(a, [w] + b);
    PackConcat(a, [words[i]] + b);
    assert ([w] + b)[1..] == b && ([words[i]] + b)[1..] == b;
    assert Pack(words) == Pack(a) + (WordBytes(words[i]) + Pack(b));
    assert Pack(words)[4 * i + 4..] == Pack(b);
  }

  lemma {:induction false} UnpackAt(bytes: seq<Byte>, i: nat)
    requires |bytes| % 4 == 0 && 4 * i < |bytes|
    ensures Unpack(bytes)[i] == WordOf(bytes[4 * i..4 * i + 4])
  {
    if i == 0 {
      assert bytes[0..4] == bytes[..4];
    } else {
      UnpackAt(bytes[4..], i - 1);
      assert bytes[4..][4 * (i - 1)..4 * (i - 1) + 4] == bytes[4 * i..4 * i + 4];
    }
  }

  /** Patching the four bytes of one word is the same as updating that word. */
  lemma PatchIsUpdate(bytes: seq<Byte>, i: nat, w: Word)
    requires |bytes| % 4 == 0 && 4 * i < |bytes|
    ensures bytes[..4 * i] + WordBytes(w) + bytes[4 * i + 4..] == Pack(Unpack(bytes)[i := w])
  {
    PackUnpack(bytes);
    PackUpdate(Unpack(bytes), i, w);
  }

  // ---------------------------------------------------------------- literal strings

  /** The encodable strings: ASCII without NUL. */
  predicate PlainAscii(s: seq<Byte>) {
    forall i :: 0 <= i < |s| ==> 0 < s[i] < 0x80
  }

  function IndexOfZero(b: seq<Byte>): (n: nat)
    ensures n <= |b| && (forall i :: 0 <= i < n ==> b[i] != 0) && (n < |b| ==> b[n] == 0)
  {
    if b == [] || b[0] == 0 then 0 else 1 + IndexOfZero(b[1..])
  }

  function LiteralIn(b: seq<Byte>): (r: Option<(seq<Byte>, nat)>)
    requires |b| % 4 == 0
    ensures r.Some? ==> 4 * r.value.1 <= |b|
  {
    var end := IndexOfZero(b);
    if end == |b| then None
    else
      var used := end / 4 + 1;
      if exists i :: end <= i < 4 * used && b[i] != 0 then None
      else if exists i :: 0 <= i < end && b[i] >= 0x80 then None
      else Some((b[..end], used))
  }

  /** `literal`: the decoded string and the number of words it used, or None when it is refused. */
  function Literal(values: seq<Word>): (r: Option<(seq<Byte>, nat)>)
    ensures r.Some? ==> r.value.1 <= |values|
  {
    LiteralIn(Pack(values))
  }

  function Padded(s: seq<Byte>): (r: seq<Byte>)
    ensures |r| == 4 * (|s| / 4 + 1)
    ensures forall i :: 0 <= i < |r| ==> r[i] == if i < |s| then s[i] else 0
  {
    s + seq(4 - |s| % 4, i => 0)
  }

  /** The words of a literal string: its bytes, a NUL, and zero padding to a word boundary. */
  function PackString(s: seq<Byte>): seq<Word> {
    Unpack(Padded(s))
  }

  lemma LiteralInPadded(s: seq<Byte>, tail: seq<Byte>)
    requires PlainAscii(s) && |tail| % 4 == 0
    ensures LiteralIn(Padded(s) + tail) == Some((s, |s| / 4 + 1))
  {
    var b := Padded(s) + tail;
    assert b[|s|] == 0 && forall i :: 0 <= i < |s| ==> b[i] == s[i] != 0;
    assert IndexOfZero(b) == |s|;
    assert b[..|s|] == s;
  }

  /** Decoding a packed string gives it back, with the words it occupied, whatever follows. */
  lemma LiteralOfPackString(s: seq<Byte>, rest: seq<Word>)
    requires PlainAscii(s)
    ensures |PackString(s)| == |s| / 4 + 1
    ensures Literal(PackString(s) + rest) == Some((s, |s| / 4 + 1))
  {
    var words := PackString(s);
    assert Pack(words) == Padded(s) by {
      PackUnpack(Padded(s));
    }
    PackConcat(words, rest);
    LiteralInPadded(s, Pack(rest));
  }

  /** Every accepted literal starts with exactly the packing of what it decodes to. */
  lemma PackStringOfLiteral(values: seq<Word>)
    requires Literal(values).Some?
    ensures var (s, used) := Literal(values).value;
            PlainAscii(s) && used <= |values| && values[..used] == PackString(s)
  {
    var (s, used) := Literal(values).value;
    var b := Pack(values);
    assert b[..4 * used] == Padded(s);
    assert values == values[..used] + values[used..];
    PackConcat(values[..used], values[used..]);
    assert b[..4 * used] == Pack(values[..used]);
    UnpackPack(values[..used]);
  }
}
