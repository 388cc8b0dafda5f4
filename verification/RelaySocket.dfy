/** The prelude and the forwarding loop as the relay runs them, over sockets that deliver in arbitrary chunks. */
module RelaySocket {
  import opened Octets
  import opened RelayCodec

  /** One end of a connection: what the peer still sends before it closes, and what it was sent. */
  class Socket {
    var incoming: seq<Byte>
    var outgoing: seq<Byte>

    constructor (incoming: seq<Byte>)
      ensures this.incoming == incoming && outgoing == []
    {
      this.incoming, this.outgoing := incoming, [];
    }

    /** At least one and at most `max` of the next bytes; nothing only at the end of the stream. */
    method Recv(max: nat) returns (chunk: seq<Byte>)
      requires max > 0
      modifies this`incoming
      ensures chunk + incoming == old(incoming) && |chunk| <= max
      ensures chunk == [] <==> old(incoming) == []
    {
      if incoming == [] {
        return [];
      }
      var k: nat :| 1 <= k <= max && k <= |incoming|;
      chunk := incoming[..k];
      incoming := incoming[k..];
    }

    method SendAll(data: seq<Byte>)
      modifies this`outgoing
      ensures outgoing == old(outgoing) + data
    {
      outgoing := outgoing + data;
    }
  }

  datatype Result<+T> = Value(value: T) | Raised(failure: Failure)

  /** `_read_exact`: the chunking of the stream does not show. */
  method ReadExact(sock: Socket, size: nat) returns (r: Result<seq<Byte>>)
    modifies sock`incoming
    ensures match TakeExact(old(sock.incoming), size)
            case Ok(v, rest) => r == Value(v) && sock.incoming == rest
            case Failed(e) => r == Raised(e) && sock.incoming == []
  {
    var chunks: seq<Byte> := [];
    var remaining := size;
    while remaining > 0
      invariant 0 <= remaining && |chunks| + remaining == size
      invariant chunks + sock.incoming == old(sock.incoming)
    {
      var chunk := sock.Recv(remaining);
      if chunk == [] {
        return Raised(Closed);
      }
      assert chunks + (chunk + sock.incoming) == (chunks + chunk) + sock.incoming;
      chunks := chunks + chunk;
      remaining := remaining - |chunk|;
    }
    assert old(sock.incoming)[..size] == chunks && old(sock.incoming)[size..] == sock.incoming;
    return Value(chunks);
  }

  /** `_read_field`. */
  method ReadField(sock: Socket) returns (r: Result<Text>)
    modifies sock`incoming
    ensures match TakeField(old(sock.incoming))
            case Ok(v, rest) => r == Value(v) && sock.incoming == rest
            case Failed(e) => r == Raised(e)
  {
    hide ValidUtf8;
    var size := ReadExact(sock, 4);
    if size.Raised? {
      return Raised(size.failure);
    }
    if !FieldSize(FromBig32(size.value)) {
      return Raised(BadLength);
    }
    var v := ReadExact(sock, FromBig32(size.value));
    if v.Raised? {
      return Raised(v.failure);
    }
    if !ValidUtf8(v.value) {
      return Raised(BadText);
    }
    return Value(v.value);
  }

  /** `read_authentication`. */
  method ReadAuthentication(sock: Socket, expected: Text) returns (r: Result<Authentication>)
    modifies sock`incoming
    ensures match TakeAuthentication(old(sock.incoming), expected)
            case Ok(a, rest) => r == Value(a) && sock.incoming == rest
            case Failed(e) => r == Raised(e)
  {
    hide ValidUtf8, FromBig32, TakeField;
    var magic := ReadExact(sock, |MAGIC|);
    if magic.Raised? {
      return Raised(magic.failure);
    }
    if magic.value != MAGIC {
      return Raised(BadMagic);
    }
    var head := ReadExact(sock, 5);
    if head.Raised? {
      return Raised(head.failure);
    }
    var session := ReadField(sock);
    if session.Raised? {
      return Raised(session.failure);
    }
    var channel := ReadField(sock);
    if channel.Raised? {
      return Raised(channel.failure);
    }
    var token := ReadField(sock);
    if token.Raised? {
      return Raised(token.failure);
    }
    var verdict := Judge(FromBig32(head.value[..4]), head.value[4], session.value, channel.value, token.value, expected, []);
    match verdict {
      case Ok(a, _) => return Value(a);
      case Failed(e) => return Raised(e);
    }
  }

  /** `_write_field`. */
  method WriteField(sock: Socket, v: Text) returns (ok: bool)
    modifies sock`outgoing
    ensures ok <==> FieldSize(|v|)
    ensures sock.outgoing == old(sock.outgoing) + if ok then FieldBytes(v) else []
  {
    if !FieldSize(|v|) {
      return false;
    }
    sock.SendAll(Big32(|v|) + v);
    return true;
  }

  /** `write_authentication`: it succeeds exactly on writable preludes, and then sends exactly their bytes. */
  method WriteAuthentication(sock: Socket, role: nat, session: Text, channel: Text, token: Text) returns (ok: bool)
    modifies sock`outgoing
    ensures ok <==> Writable(Prelude(role, session, channel, token))
    ensures ok ==> sock.outgoing == old(sock.outgoing) + PreludeBytes(Prelude(role, session, channel, token))
    ensures old(sock.outgoing) <= sock.outgoing
  {
    hide ValidUtf8, Big32, FieldBytes;
    ghost var before := sock.outgoing;
    if role >= 0x100 {
      return false;
    }
    var head := MAGIC + Big32(SCHEMA_VERSION) + [role];
    sock.SendAll(head);
    ok := WriteField(sock, session);
    if !ok {
      return;
    }
    ok := WriteField(sock, channel);
    if !ok {
      return;
    }
    ok := WriteField(sock, token);
    if ok {
      assert before + head + FieldBytes(session) + FieldBytes(channel) + FieldBytes(token)
          == before + (head + FieldBytes(session) + FieldBytes(channel) + FieldBytes(token));
    }
  }

  /** The counters of a lane. */
  class Counters {
    var bytes: nat
    var chunks: nat
    var error: bool

    constructor ()
      ensures bytes == 0 && chunks == 0 && !error
    {
      bytes, chunks, error := 0, 0, false;
    }
  }

  /**
   * `_forward`, undisturbed or cut off by a failing receive or send: the receiver gets a prefix of
   * what the sender sends, all of it unless an error is recorded, and the counters never exceed it.
   */
  method Forward(sender: Socket, receiver: Socket, lane: Counters)
    requires sender != receiver && lane.bytes == 0 && lane.chunks == 0 && !lane.error
    modifies sender`incoming, receiver`outgoing, lane
    ensures old(receiver.outgoing) <= receiver.outgoing
    ensures receiver.outgoing[|old(receiver.outgoing)|..] <= old(sender.incoming)
    ensures !lane.error ==> receiver.outgoing == old(receiver.outgoing) + old(sender.incoming)
    ensures lane.bytes <= |receiver.outgoing| - |old(receiver.outgoing)|
    ensures !lane.error ==> lane.bytes == |old(sender.incoming)|
    ensures lane.chunks <= lane.bytes <= COPY_BUFFER_BYTES * lane.chunks
  {
    ghost var delivered: seq<Byte> := [];
    while true
      invariant receiver.outgoing == old(receiver.outgoing) + delivered
      invariant delivered + sender.incoming == old(sender.incoming)
      invariant lane.bytes == |delivered| && !lane.error
      invariant lane.chunks <= lane.bytes <= COPY_BUFFER_BYTES * lane.chunks
      decreases |sender.incoming|
    {
      if * {
        lane.error := true;
        return;
      }
      var chunk := sender.Recv(COPY_BUFFER_BYTES);
      assert delivered + (chunk + sender.incoming) == old(sender.incoming);
      if chunk == [] {
        return;
      }
      if * {
        var sent: nat :| sent <= |chunk|;
        receiver.SendAll(chunk[..sent]);
        lane.error := true;
        assert receiver.outgoing[|old(receiver.outgoing)|..] == delivered + chunk[..sent];
        return;
      }
      receiver.SendAll(chunk);
      assert old(receiver.outgoing) + delivered + chunk == old(receiver.outgoing) + (delivered + chunk);
      delivered := delivered + chunk;
      lane.bytes := lane.bytes + |chunk|;
      lane.chunks := lane.chunks + 1;
    }
  }
}
