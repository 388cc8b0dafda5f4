/** What makes a file unacceptable before its interface is looked at. */
module SpirvHeader {
  import opened Octets
  import opened Sequences
  import opened SpirvWords
  import opened SpirvModule
  import opened SpirvBinary

  lemma FiveWords(data: seq<Byte>)
    requires |data| >= 20 && |data| % 4 == 0
    ensures var words := Unpack(data);
            && |words| >= 5 && words[5..] == Unpack(data[20..])
            && words[0] == WordOf(data[0..4]) && words[1] == WordOf(data[4..8]) && words[3] == WordOf(data[12..16])
            && words[4] == WordOf(data[16..20])
  {
    hide WordOf;
    UnpackAt(data, 0);
    UnpackAt(data, 1);
    UnpackAt(data, 3);
    UnpackAt(data, 4);
    UnpackDrop(data, 5);
  }

  lemma {:induction false} UnpackDrop(data: seq<Byte>, n: nat)
    requires |data| % 4 == 0 && 4 * n <= |data|
    ensures Unpack(data)[n..] == Unpack(data[4 * n..])
    decreases n
  {
    hide WordOf;
    if n > 0 {
      UnpackDrop(data[4..], n - 1);
      assert data[4..][4 * (n - 1)..] == data[4 * n..];
      assert Unpack(data)[n..] == Unpack(data)[1..][n - 1..];
    }
  }

  lemma WordIs(b: seq<Byte>, w: Word)
    requires |b| == 4
    ensures WordOf(b) == w <==> b == WordBytes(w)
  {
    WordRoundTrip(w);
    BytesRoundTrip(b);
  }

  /** The four bytes that follow from each fixed header word. */
  lemma HeaderWords(data: seq<Byte>)
    requires |data| >= 20 && |data| % 4 == 0
    ensures HeaderOk(Unpack(data)) <==>
            && data[0..4] == [0x03, 0x02, 0x23, 0x07] && data[4..8] == [0x00, 0x03, 0x01, 0x00]
            && data[16..20] == [0, 0, 0, 0] && 2 <= WordOf(data[12..16]) <= 65536
  {
    hide WordOf, WordBytes, Unpack;
    FiveWords(data);
    WordIs(data[0..4], 0x0723_0203);
    WordIs(data[4..8], 0x0001_0300);
    WordIs(data[16..20], 0);
    FixedBytes();
  }

  lemma FixedBytes()
    ensures WordBytes(0x0723_0203) == [0x03, 0x02, 0x23, 0x07]
    ensures WordBytes(0x0001_0300) == [0x00, 0x03, 0x01, 0x00]
    ensures WordBytes(0) == [0, 0, 0, 0]
  {
  }

  /**
   * Every accepted file is a whole number of words within the size bound that starts with the magic
   * number, version 1.3 and a zero schema word, and whose id bound is at most 65536.
   */
  lemma AcceptedHeader(data: seq<Byte>)
    requires Contract(data)
    ensures 20 <= |data| <= 65536 && |data| % 4 == 0
    ensures data[0..4] == [0x03, 0x02, 0x23, 0x07] && data[4..8] == [0x00, 0x03, 0x01, 0x00]
    ensures data[16..20] == [0, 0, 0, 0]
    ensures 2 <= data[12] as int + 0x100 * data[13] as int + 0x1_0000 * data[14] as int + 0x100_0000 * data[15] as int
              <= 65536
  {
    hide FixedAbi, DecodeStream, Unpack;
    HeaderWords(data);
  }

  /** Of an accepted file's header exactly the generator word may be changed, given the same id bound. */
  lemma HeaderIsExact(data: seq<Byte>, data': seq<Byte>)
    requires Contract(data) && |data'| == |data| && data'[20..] == data[20..] && data'[12..16] == data[12..16]
    ensures Contract(data') <==>
            && data'[0..4] == [0x03, 0x02, 0x23, 0x07] && data'[4..8] == [0x00, 0x03, 0x01, 0x00]
            && data'[16..20] == [0, 0, 0, 0]
  {
    hide FixedAbi, DecodeStream, Unpack, HeaderOk, WordOf;
    HeaderWords(data);
    HeaderWords(data');
    FiveWords(data);
    FiveWords(data');
  }

  /** Opcodes that are refused wherever they stand. */
  predicate RefusedOpcode(code: nat) {
    || code == 10 || code == 25 || code == 26 || code == 27 || code == 31
    || code == 48 || code == 49 || code == 50 || code == 51 || code == 52
    || code == 73 || code == 74 || code == 75 || code == 331
  }

  /** A stream with such an instruction at an instruction boundary is rejected, whatever else it holds. */
  lemma RefusedInstructionIsRejected(header: seq<Word>, a: seq<Word>, x: seq<Word>, b: seq<Word>)
    requires |header| == 5 && WellFramed(a) && x != [] && WordCount(x[0]) == |x| && RefusedOpcode(OpcodeOf(x[0]))
    ensures !WordContract(header + a + x + b)
  {
    hide FixedAbi, DecodeStream, WellFramed;
    var words := header + a + x + b;
    assert words[5..] == a + (x + b) && words[3] == header[3];
    StreamConcat(a, x + b, header[3]);
    RefusedFirst(x + b, header[3]);
  }

  lemma RefusedFirst(ws: seq<Word>, bound: Word)
    requires Framed(ws) && RefusedOpcode(OpcodeOf(ws[0]))
    ensures DecodeStream(ws, bound) == None
  {
    assert DecodeFirst(ws, bound) == Refused;
  }
}
