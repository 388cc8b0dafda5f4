/** The texts of the relay: what `decode("utf-8")` accepts, by the encoding of section 3 of RFC 3629. */
module RelayText {
  import opened Octets
  import opened RelayCodec

  /** A Unicode scalar value: a code point that is no surrogate. */
  predicate Scalar(c: nat) {
    c < 0xd800 || 0xe000 <= c < 0x110000
  }

  function EncodeOne(c: nat): seq<Byte>
    requires Scalar(c)
  {
    if c < 0x80 then [c]
    else if c < 0x800 then [0xc0 + c / 64, 0x80 + c % 64]
    else if c < 0x10000 then [0xe0 + c / 4096, 0x80 + c / 64 % 64, 0x80 + c % 64]
    else [0xf0 + c / 262144, 0x80 + c / 4096 % 64, 0x80 + c / 64 % 64, 0x80 + c % 64]
  }

  predicate Scalars(s: seq<nat>) {
    forall i | 0 <= i < |s| :: Scalar(s[i])
  }

  function EncodeAll(s: seq<nat>): seq<Byte>
    requires Scalars(s)
  {
    if s == [] then [] else EncodeOne(s[0]) + EncodeAll(s[1..])
  }

  lemma OneIsValid(c: nat, rest: seq<Byte>)
    requires Scalar(c) && ValidUtf8(rest)
    ensures ValidUtf8(EncodeOne(c) + rest)
  {
    var b := EncodeOne(c) + rest;
    if c < 0x80 {
      assert b[1..] == rest;
    } else if c < 0x800 {
      assert b[2..] == rest;
    } else if c < 0x10000 {
      assert b[3..] == rest;
      ThreeBytes(c);
    } else {
      assert b[4..] == rest;
      FourBytes(c);
    }
  }

  lemma ThreeBytes(c: nat)
    requires 0x800 <= c < 0x10000 && Scalar(c)
    ensures LeadPair(0xe0 + c / 4096, 0x80 + c / 64 % 64)
  {
    assert c / 64 == c / 4096 * 64 + c / 64 % 64 by { assert c / 4096 == c / 64 / 64; }
  }

  lemma FourBytes(c: nat)
    requires 0x10000 <= c < 0x110000
    ensures c / 262144 <= 4 && LeadPair(0xf0 + c / 262144, 0x80 + c / 4096 % 64)
  {
    assert c / 4096 == c / 262144 * 64 + c / 4096 % 64 by { assert c / 262144 == c / 4096 / 64; }
  }

  /** A valid beginning is the encoding of one scalar value. */
  lemma FirstScalar(b: seq<Byte>) returns (c: nat, n: nat)
    requires b != [] && ValidUtf8(b)
    ensures Scalar(c) && 1 <= n <= |b| && b[..n] == EncodeOne(c) && ValidUtf8(b[n..])
  {
    var b0: int := b[0];
    if b0 < 0x80 {
      c, n := b0, 1;
    } else {
      var b1: int := b[1];
      if b0 < 0xe0 {
        c, n := (b0 - 0xc0) * 64 + (b1 - 0x80), 2;
        assert b[..2] == [b[0], b[1]];
      } else if b0 < 0xf0 {
        var b2: int := b[2];
        n := 3;
        c := DecodeThree(b0, b1, b2);
        assert b[..3] == [b[0], b[1], b[2]];
      } else {
        var b2: int, b3: int := b[2], b[3];
        n := 4;
        c := DecodeFour(b0, b1, b2, b3);
        assert b[..4] == [b[0], b[1], b[2], b[3]];
      }
    }
  }

  lemma DecodeThree(b0: int, b1: int, b2: int) returns (c: nat)
    requires 0xe0 <= b0 < 0xf0 && 0x80 <= b1 <= 0xbf && 0x80 <= b2 <= 0xbf && LeadPair(b0, b1)
    ensures Scalar(c) && 0x800 <= c < 0x10000
    ensures c / 4096 == b0 - 0xe0 && c / 64 % 64 == b1 - 0x80 && c % 64 == b2 - 0x80
  {
    c := (b0 - 0xe0) * 4096 + (b1 - 0x80) * 64 + (b2 - 0x80);
    assert c / 64 == (b0 - 0xe0) * 64 + (b1 - 0x80);
    assert c / 4096 == c / 64 / 64;
  }

  lemma DecodeFour(b0: int, b1: int, b2: int, b3: int) returns (c: nat)
    requires 0xf0 <= b0 < 0x100 && 0x80 <= b1 <= 0xbf && 0x80 <= b2 <= 0xbf && 0x80 <= b3 <= 0xbf && LeadPair(b0, b1)
    ensures Scalar(c) && 0x10000 <= c
    ensures c / 262144 == b0 - 0xf0 && c / 4096 % 64 == b1 - 0x80 && c / 64 % 64 == b2 - 0x80 && c % 64 == b3 - 0x80
  {
    c := (b0 - 0xf0) * 262144 + (b1 - 0x80) * 4096 + (b2 - 0x80) * 64 + (b3 - 0x80);
    assert c / 64 == (b0 - 0xf0) * 4096 + (b1 - 0x80) * 64 + (b2 - 0x80);
    assert c / 4096 == c / 64 / 64 == (b0 - 0xf0) * 64 + (b1 - 0x80);
    assert c / 262144 == c / 4096 / 64;
  }

  lemma {:induction false} EncodedIsValid(s: seq<nat>)
    requires Scalars(s)
    ensures ValidUtf8(EncodeAll(s))
  {
    hide ValidUtf8, EncodeOne;
    if s == [] {
      NothingIsValid();
    } else {
      EncodedIsValid(s[1..]);
      OneIsValid(s[0], EncodeAll(s[1..]));
    }
  }

  lemma NothingIsValid()
    ensures ValidUtf8([])
  {
  }

  lemma {:induction false} ValidIsEncoded(b: seq<Byte>) returns (s: seq<nat>)
    requires ValidUtf8(b)
    ensures Scalars(s) && EncodeAll(s) == b
    decreases |b|
  {
    hide ValidUtf8, EncodeOne;
    if b == [] {
      s := [];
    } else {
      var c, n := FirstScalar(b);
      var rest := ValidIsEncoded(b[n..]);
      s := [c] + rest;
      assert s[1..] == rest && b == b[..n] + b[n..];
    }
  }

  /** A byte string is taken for text if and only if it encodes some sequence of scalar values. */
  lemma TextIffEncoded(b: seq<Byte>)
    ensures ValidUtf8(b) <==> exists s :: Scalars(s) && EncodeAll(s) == b
  {
    hide ValidUtf8, EncodeAll, Scalars;
    if ValidUtf8(b) {
      var s := ValidIsEncoded(b);
    }
    if s :| Scalars(s) && EncodeAll(s) == b {
      EncodedIsValid(s);
    }
  }
}
