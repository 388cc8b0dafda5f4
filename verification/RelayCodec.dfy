/** The TLS relay's authentication prelude: three length-prefixed fields behind a fixed header. */
module RelayCodec {
  import opened Octets

  const MAGIC: seq<Byte> := [82, 81, 80, 82, 76, 89, 49, 10]
  const SCHEMA_VERSION: nat := 1
  const ROLE_SENDER: nat := 1
  const ROLE_RECEIVER: nat := 2
  const MAX_FIELD_BYTES: nat := 1024
  const COPY_BUFFER_BYTES: nat := 65536

  // ---------------------------------------------------------------- text

  predicate Continuation(b: Byte) { 0x80 <= b <= 0xBF }

  /** The lead byte and second byte of a multi-byte sequence, as section 4 of RFC 3629 lists them. */
  predicate LeadPair(a: Byte, b: Byte) {
    || (0xC2 <= a <= 0xDF && Continuation(b))
    || (a == 0xE0 && 0xA0 <= b <= 0xBF) || (a == 0xED && 0x80 <= b <= 0x9F)
    || (0xE1 <= a <= 0xEF && a != 0xED && Continuation(b))
    || (a == 0xF0 && 0x90 <= b <= 0xBF) || (0xF1 <= a <= 0xF3 && Continuation(b)) || (a == 0xF4 && 0x80 <= b <= 0x8F)
  }

  /** `b` is the UTF-8 encoding of some text; a text is identified with its encoding. */
  predicate ValidUtf8(b: seq<Byte>) {
    if b == [] then true
    else if b[0] < 0x80 then ValidUtf8(b[1..])
    else if |b| < 2 || !LeadPair(b[0], b[1]) then false
    else if b[0] < 0xE0 then ValidUtf8(b[2..])
    else if b[0] < 0xF0 then |b| >= 3 && Continuation(b[2]) && ValidUtf8(b[3..])
    else |b| >= 4 && Continuation(b[2]) && Continuation(b[3]) && ValidUtf8(b[4..])
  }

  type Text = b: seq<Byte> | ValidUtf8(b)

  predicate Ascii(t: seq<Byte>) {
    forall i :: 0 <= i < |t| ==> t[i] < 0x80
  }

  lemma {:induction false} AsciiIsUtf8(t: seq<Byte>)
    requires Ascii(t)
    ensures ValidUtf8(t)
  {
    if t != [] {
      AsciiIsUtf8(t[1..]);
    }
  }

  // ---------------------------------------------------------------- the wire format

  /** `struct.pack(">I", n)`. */
  function Big32(n: nat): (r: seq<Byte>)
    requires n < 0x1_0000_0000
    ensures |r| == 4
  {
    [n / 0x100_0000, n / 0x1_0000 % 0x100, n / 0x100 % 0x100, n % 0x100]
  }

  function FromBig32(b: seq<Byte>): nat
    requires |b| == 4
  {
    var b0: int, b1: int, b2: int, b3: int := b[0], b[1], b[2], b[3];
    0x100_0000 * b0 + 0x1_0000 * b1 + 0x100 * b2 + b3
  }

  lemma Big32RoundTrip(n: nat)
    requires n < 0x1_0000_0000
    ensures FromBig32(Big32(n)) == n
  {
    assert n / 0x1_0000 == n / 0x100 / 0x100 && n / 0x100_0000 == n / 0x100 / 0x100 / 0x100;
  }

  lemma FromBig32RoundTrip(b: seq<Byte>)
    requires |b| == 4
    ensures FromBig32(b) < 0x1_0000_0000 && Big32(FromBig32(b)) == b
  {
    BigDigits(b[0], b[1], b[2], b[3]);
  }

  lemma BigDigits(b0: int, b1: int, b2: int, b3: int)
    requires 0 <= b0 < 0x100 && 0 <= b1 < 0x100 && 0 <= b2 < 0x100 && 0 <= b3 < 0x100
    ensures var n := 0x100_0000 * b0 + 0x1_0000 * b1 + 0x100 * b2 + b3;
            n / 0x100_0000 == b0 && n / 0x1_0000 % 0x100 == b1 && n / 0x100 % 0x100 == b2 && n % 0x100 == b3
  {
    var n := 0x100_0000 * b0 + 0x1_0000 * b1 + 0x100 * b2 + b3;
    assert n / 0x100 == 0x1_0000 * b0 + 0x100 * b1 + b2;
    assert n / 0x1_0000 == 0x100 * b0 + b1;
  }

  /** Most significant byte first: smaller numbers come earlier in the order of their bytes. */
  lemma Big32Order(m: nat, n: nat) returns (k: nat)
    requires m < n < 0x1_0000_0000
    ensures k < 4 && Big32(m)[..k] == Big32(n)[..k] && Big32(m)[k] < Big32(n)[k]
  {
    var a: seq<int>, b: seq<int> := Big32(m), Big32(n);
    Big32RoundTrip(m);
    Big32RoundTrip(n);
    k := if a[0] != b[0] then 0 else if a[1] != b[1] then 1 else if a[2] != b[2] then 2 else 3;
    assert a[k] != b[k];
  }

  predicate FieldSize(n: nat) {
    1 <= n <= MAX_FIELD_BYTES
  }

  function FieldBytes(v: seq<Byte>): seq<Byte>
    requires FieldSize(|v|)
  {
    Big32(|v|) + v
  }

  datatype Prelude = Prelude(role: nat, session: Text, channel: Text, token: Text)

  predicate Writable(p: Prelude) {
    p.role < 0x100 && FieldSize(|p.session|) && FieldSize(|p.channel|) && FieldSize(|p.token|)
  }

  /** What `write_authentication` sends. */
  function PreludeBytes(p: Prelude): seq<Byte>
    requires Writable(p)
  {
    MAGIC + Big32(SCHEMA_VERSION) + [p.role] + FieldBytes(p.session) + FieldBytes(p.channel) + FieldBytes(p.token)
  }

  // ---------------------------------------------------------------- reading

  datatype Failure = Closed | BadMagic | BadLength | BadText | BadSchema | TokenNotAscii | TokenRejected

  datatype Reading<+T> = Ok(value: T, rest: seq<Byte>) | Failed(failure: Failure)

  datatype Authentication = Authentication(role: nat, session: Text, channel: Text)

  function TakeExact(s: seq<Byte>, n: nat): Reading<seq<Byte>> {
    if n <= |s| then Ok(s[..n], s[n..]) else Failed(Closed)
  }

  function TakeField(s: seq<Byte>): Reading<Text> {
    match TakeExact(s, 4)
    case Failed(e) => Failed(e)
    case Ok(size, rest) =>
      if !FieldSize(FromBig32(size)) then Failed(BadLength)
      else match TakeExact(rest, FromBig32(size))
        case Failed(e) => Failed(e)
        case Ok(v, rest') => if ValidUtf8(v) then Ok(v, rest') else Failed(BadText)
  }

  function TakeThree(s: seq<Byte>): Reading<(Text, Text, Text)> {
    match TakeField(s)
    case Failed(e) => Failed(e)
    case Ok(a, s1) =>
      match TakeField(s1)
      case Failed(e) => Failed(e)
      case Ok(b, s2) =>
        match TakeField(s2)
        case Failed(e) => Failed(e)
        case Ok(c, s3) => Ok((a, b, c), s3)
  }

  /** The checks that `read_authentication` makes after everything was read. */
  function Judge(version: nat, role: nat, session: Text, channel: Text, token: Text, expected: Text,
                 rest: seq<Byte>): Reading<Authentication>
  {
    if version != SCHEMA_VERSION || (role != ROLE_SENDER && role != ROLE_RECEIVER) then Failed(BadSchema)
    else if !Ascii(token) || !Ascii(expected) then Failed(TokenNotAscii)
    else if token != expected then Failed(TokenRejected)
    else Ok(Authentication(role, session, channel), rest)
  }

  /** `read_authentication` on the bytes that the peer sends until it closes. */
  function TakeAuthentication(s: seq<Byte>, expected: Text): Reading<Authentication> {
    match TakeExact(s, |MAGIC|)
    case Failed(e) => Failed(e)
    case Ok(magic, s1) =>
      if magic != MAGIC then Failed(BadMagic)
      else match TakeExact(s1, 5)
        case Failed(e) => Failed(e)
        case Ok(head, s2) =>
          match TakeThree(s2)
          case Failed(e) => Failed(e)
          case Ok((session, channel, token), s3) =>
            Judge(FromBig32(head[..4]), head[4], session, channel, token, expected, s3)
  }

  // ---------------------------------------------------------------- round trips

  lemma FieldRoundTrip(v: Text, rest: seq<Byte>)
    requires FieldSize(|v|)
    ensures TakeField(FieldBytes(v) + rest) == Ok(v, rest)
  {
    hide ValidUtf8, Big32, FromBig32;
    var s := FieldBytes(v) + rest;
    assert s[..4] == Big32(|v|) && s[4..] == v + rest;
    assert (v + rest)[..|v|] == v && (v + rest)[|v|..] == rest;
    Big32RoundTrip(|v|);
  }

  lemma FieldIsFieldBytes(s: seq<Byte>)
    requires TakeField(s).Ok?
    ensures FieldSize(|TakeField(s).value|) && s == FieldBytes(TakeField(s).value) + TakeField(s).rest
  {
    hide ValidUtf8, Big32, FromBig32;
    FromBig32RoundTrip(s[..4]);
    var n := FromBig32(s[..4]);
    assert s == s[..4] + s[4..][..n] + s[4..][n..];
  }

  lemma ThreeRoundTrip(a: Text, b: Text, c: Text, rest: seq<Byte>)
    requires FieldSize(|a|) && FieldSize(|b|) && FieldSize(|c|)
    ensures TakeThree(FieldBytes(a) + FieldBytes(b) + FieldBytes(c) + rest) == Ok((a, b, c), rest)
  {
    hide TakeField, FieldBytes, ValidUtf8;
    var A, B, C := FieldBytes(a), FieldBytes(b), FieldBytes(c);
    FieldRoundTrip(a, B + C + rest);
    FieldRoundTrip(b, C + rest);
    FieldRoundTrip(c, rest);
    assert A + B + C + rest == A + (B + C + rest) && B + C + rest == B + (C + rest);
  }

  lemma ThreeIsFieldBytes(s: seq<Byte>)
    requires TakeThree(s).Ok?
    ensures var (a, b, c) := TakeThree(s).value;
            && FieldSize(|a|) && FieldSize(|b|) && FieldSize(|c|)
            && s == FieldBytes(a) + FieldBytes(b) + FieldBytes(c) + TakeThree(s).rest
  {
    hide TakeField, FieldBytes, ValidUtf8;
    FieldIsFieldBytes(s);
    var s1 := TakeField(s).rest;
    FieldIsFieldBytes(s1);
    var s2 := TakeField(s1).rest;
    FieldIsFieldBytes(s2);
    var A, B, C := FieldBytes(TakeField(s).value), FieldBytes(TakeField(s1).value), FieldBytes(TakeField(s2).value);
    assert A + (B + (C + TakeField(s2).rest)) == A + B + C + TakeField(s2).rest;
  }

  /** Whatever is read back from a written prelude are its own fields, and exactly what follows is left. */
  lemma PreludeParses(p: Prelude, expected: Text, rest: seq<Byte>)
    requires Writable(p)
    ensures TakeAuthentication(PreludeBytes(p) + rest, expected)
            == Judge(SCHEMA_VERSION, p.role, p.session, p.channel, p.token, expected, rest)
  {
    hide TakeThree, FieldBytes, ValidUtf8, Big32, FromBig32, Judge;
    var fields := FieldBytes(p.session) + FieldBytes(p.channel) + FieldBytes(p.token);
    var head := Big32(SCHEMA_VERSION) + [p.role];
    var s := PreludeBytes(p) + rest;
    assert s == MAGIC + (head + (fields + rest));
    assert s[..|MAGIC|] == MAGIC && s[|MAGIC|..] == head + (fields + rest);
    assert (head + (fields + rest))[..5] == head && (head + (fields + rest))[5..] == fields + rest;
    assert head[..4] == Big32(SCHEMA_VERSION) && head[4] == p.role;
    Big32RoundTrip(SCHEMA_VERSION);
    ThreeRoundTrip(p.session, p.channel, p.token, rest);
  }

  /** The round trip, for every acceptable role, session, channel and ASCII token. */
  lemma PreludeRoundTrip(p: Prelude, rest: seq<Byte>)
    requires Writable(p) && (p.role == ROLE_SENDER || p.role == ROLE_RECEIVER) && Ascii(p.token)
    ensures TakeAuthentication(PreludeBytes(p) + rest, p.token) == Ok(Authentication(p.role, p.session, p.channel), rest)
  {
    hide TakeAuthentication, PreludeBytes, ValidUtf8;
    PreludeParses(p, p.token, rest);
  }

  /** Conversely, every accepted stream starts with exactly what a writer of its fields sends. */
  lemma AcceptedIsPrelude(s: seq<Byte>, expected: Text)
    requires TakeAuthentication(s, expected).Ok?
    ensures var (a, rest) := (TakeAuthentication(s, expected).value, TakeAuthentication(s, expected).rest);
            var p := Prelude(a.role, a.session, a.channel, expected);
            && Writable(p) && (a.role == ROLE_SENDER || a.role == ROLE_RECEIVER) && Ascii(expected)
            && s == PreludeBytes(p) + rest
  {
    hide TakeThree, FieldBytes, ValidUtf8, Big32, FromBig32;
    var s1 := s[|MAGIC|..];
    var head, s2 := s1[..5], s1[5..];
    ThreeIsFieldBytes(s2);
    FromBig32RoundTrip(head[..4]);
    assert head == Big32(SCHEMA_VERSION) + [head[4]];
    var (session, channel, token) := TakeThree(s2).value;
    var rest := TakeThree(s2).rest;
    assert s == MAGIC + (head + (FieldBytes(session) + FieldBytes(channel) + FieldBytes(token) + rest));
    assert s == PreludeBytes(Prelude(head[4], session, channel, token)) + rest;
  }

  /** No prelude is a proper prefix of another, so the prelude is self-delimiting. */
  lemma PreludesArePrefixFree(p: Prelude, q: Prelude, tail: seq<Byte>)
    requires Writable(p) && Writable(q) && PreludeBytes(q) == PreludeBytes(p) + tail
    ensures p == q && tail == []
  {
    hide PreludeBytes, TakeThree, FieldBytes, ValidUtf8, Big32, FromBig32;
    FieldsOf(p, tail);
    FieldsOf(q, []);
    assert PreludeBytes(q) + [] == PreludeBytes(q);
  }

  /** The fields of a prelude, read from its bytes. */
  lemma FieldsOf(p: Prelude, rest: seq<Byte>)
    requires Writable(p)
    ensures var s := PreludeBytes(p) + rest;
            |s| >= 13 && s[12] == p.role && TakeThree(s[13..]) == Ok((p.session, p.channel, p.token), rest)
  {
    hide TakeThree, FieldBytes, ValidUtf8, Big32;
    var fields := FieldBytes(p.session) + FieldBytes(p.channel) + FieldBytes(p.token);
    var s := PreludeBytes(p) + rest;
    assert s == MAGIC + Big32(SCHEMA_VERSION) + [p.role] + (fields + rest);
    assert s[13..] == fields + rest;
    ThreeRoundTrip(p.session, p.channel, p.token, rest);
  }

  // ---------------------------------------------------------------- byte for byte

  /** A field on the wire: its length in four bytes, the first two of them zero, and its bytes. */
  lemma FieldLayout(v: seq<Byte>)
    ensures FieldSize(|v|) <==> 1 <= |v| <= 1024
    ensures FieldSize(|v|) ==> FieldBytes(v) == [0, 0, |v| / 256, |v| % 256] + v
  {
  }

  /** A prelude on the wire: "RQPRLY1" and a line feed, version 1, the role, and three fields. */
  lemma PreludeLayout(p: Prelude)
    ensures Writable(p) <==>
            p.role < 256 && 1 <= |p.session| <= 1024 && 1 <= |p.channel| <= 1024 && 1 <= |p.token| <= 1024
    ensures Writable(p) ==>
              PreludeBytes(p) ==
              [82, 81, 80, 82, 76, 89, 49, 10, 0, 0, 0, 1, p.role]
              + [0, 0, |p.session| / 256, |p.session| % 256] + p.session
              + [0, 0, |p.channel| / 256, |p.channel| % 256] + p.channel
              + [0, 0, |p.token| / 256, |p.token| % 256] + p.token
  {
    hide ValidUtf8;
    FieldLayout(p.session);
    FieldLayout(p.channel);
    FieldLayout(p.token);
    if Writable(p) {
      assert MAGIC + Big32(SCHEMA_VERSION) + [p.role] == [82, 81, 80, 82, 76, 89, 49, 10, 0, 0, 0, 1, p.role];
    }
  }

  /** What reading a written prelude is answered, for every role and token. */
  lemma PreludeVerdict(p: Prelude, expected: Text, rest: seq<Byte>)
    requires Writable(p)
    ensures TakeAuthentication(PreludeBytes(p) + rest, expected) ==
            if p.role != 1 && p.role != 2 then Failed(BadSchema)
            else if exists i :: 0 <= i < |p.token| && p.token[i] >= 128 then Failed(TokenNotAscii)
            else if exists i :: 0 <= i < |expected| && expected[i] >= 128 then Failed(TokenNotAscii)
            else if p.token != expected then Failed(TokenRejected)
            else Ok(Authentication(p.role, p.session, p.channel), rest)
  {
    hide ValidUtf8, TakeAuthentication, PreludeBytes;
    PreludeParses(p, expected, rest);
  }
}
