/**
 The socket loops around the frames.  A socket may take or deliver fewer bytes than asked;
 the frame headers alone are assumed to arrive whole.
 */
module FrameIO {
  import opened Wrappers
  import opened Words
  import opened ByteValues
  import opened Frames

  datatype PollResult = Closed | Handled

  class Socket {
    var incoming: Bytes   // what the peer has sent and nobody has read
    var outgoing: Bytes   // what has been sent to the peer
    var failed: bool      // some send has failed

    /** Delivers at least one byte unless the stream has ended. */
    method Recv(max: nat) returns (chunk: Bytes)
      requires max > 0
      modifies this`incoming
      ensures chunk + incoming == old(incoming) && |chunk| <= max
      ensures chunk == [] <==> old(incoming) == []
    {
      if incoming == [] {
        return [];
      }
      var n: nat :| 1 <= n <= max && n <= |incoming|;
      chunk, incoming := incoming[..n], incoming[n..];
    }

    /** A read of a few header bytes, all at once or not at all. */
    method RecvHeader(n: nat) returns (header: Option<Bytes>)
      modifies this`incoming
      ensures |old(incoming)| < n ==> header == None
      ensures |old(incoming)| >= n ==> header == Some(old(incoming)[..n]) && incoming == old(incoming)[n..]
    {
      if |incoming| < n {
        return None;
      }
      header, incoming := Some(incoming[..n]), incoming[n..];
    }

    /** Takes some of the bytes, or fails and takes none. */
    method Send(data: Bytes) returns (n: int)
      modifies this`outgoing, this`failed
      ensures n <= |data| && outgoing == old(outgoing) + (if n <= 0 then [] else data[..n])
      ensures failed == (old(failed) || n <= 0)
    {
      n :| n <= |data|;
      outgoing := outgoing + if n <= 0 then [] else data[..n];
      failed := failed || n <= 0;
    }
  }

  /** Sends everything, or stops at the first failure with a part sent. */
  method SendAll(socket: Socket, data: Bytes) returns (ok: bool)
    modifies socket`outgoing, socket`failed
    ensures ok ==> socket.outgoing == old(socket.outgoing) + data && socket.failed == old(socket.failed)
    ensures !ok ==> socket.failed
    ensures old(socket.outgoing) <= socket.outgoing <= old(socket.outgoing) + data
  {
    var sent := 0;
    while sent < |data|
      invariant 0 <= sent <= |data|
      invariant socket.outgoing == old(socket.outgoing) + data[..sent] && socket.failed == old(socket.failed)
    {
      var n := socket.Send(data[sent..]);
      if n <= 0 {
        return false;
      }
      assert data[..sent] + data[sent..][..n] == data[..sent + n];
      sent := sent + n;
    }
    ok := true;
  }

  /** The length bytes of an unmasked frame. */
  method LengthHeader(length: nat) returns (header: Bytes)
    requires length < TWO_64
    ensures header == LengthField(length, 0)
  {
    HeaderIsLengthField(length);
    if length < 126 {
      header := [ByteOf(length)];
    } else if length <= 0xFFFF {
      header := [126];
      header := header + [ByteAt(length, 1)];
      header := header + [ByteAt(length, 0)];
    } else {
      header := PushUint64([127], length);
    }
  }

  method SendTextFrame(socket: Socket, payload: Bytes) returns (ok: bool)
    requires |payload| < TWO_64
    modifies socket`outgoing, socket`failed
    ensures ok ==> socket.outgoing == old(socket.outgoing) + TextFrame(payload)
    ensures !ok ==> socket.failed
    ensures old(socket.outgoing) <= socket.outgoing <= old(socket.outgoing) + TextFrame(payload)
  {
    var header := LengthHeader(|payload|);
    var frame: Bytes := [0x81] + header;
    frame := frame + payload;
    ok := SendAll(socket, frame);
  }

  method SendControlFrame(socket: Socket, opcode: bv8, payload: Bytes)
    modifies socket`outgoing, socket`failed
    ensures !socket.failed ==> socket.outgoing == old(socket.outgoing) + ControlFrame(opcode, payload)
    ensures old(socket.outgoing) <= socket.outgoing <= old(socket.outgoing) + ControlFrame(opcode, payload)
    ensures old(socket.failed) ==> socket.failed
  {
    var frame: Bytes := [0x80 | opcode];
    frame := frame + [ByteOf(|payload| % 256) & 0x7F];
    frame := frame + payload;
    assert frame == ControlFrame(opcode, payload);
    var ok := SendAll(socket, frame);
  }

  lemma HeaderIsLengthField(length: nat)
    requires length < TWO_64
    ensures length < 126 ==> LengthField(length, 0) == [ByteOf(length)]
    ensures 126 <= length <= 0xFFFF ==> LengthField(length, 0) == [126, ByteAt(length, 1), ByteAt(length, 0)]
    ensures length > 0xFFFF ==> LengthField(length, 0) == [127] + BigEndian(length, 8)
  {
    if length < 126 {
      assert 0 | ByteOf(length) == ByteOf(length);
    } else if length <= 0xFFFF {
      BigEndianAppends(length, 0, 2);
      BigEndianAppends(length, 1, 2);
      assert BigEndian(length, 2) == [ByteAt(length, 1), ByteAt(length, 0)];
    }
  }

  /** What the server answers to a frame. */
  function Reply(frame: Frame): Bytes {
    if frame.opcode == CLOSE then ControlFrame(CLOSE, [])
    else if frame.opcode == PING then ControlFrame(PONG, frame.payload)
    else []
  }

  /** The part of a frame before its payload: opcode, payload length and mask key. */
  function DecodeHeader(stream: Bytes): Option<(bv8, nat, Bytes, Bytes)> {
    if |stream| < 2 then None
    else
      var extra, key := ExtraLength(stream[1]), KeyLength(stream[1]);
      if |stream| < 2 + extra + key then None
      else
        Some((stream[0] & 0x0F, PayloadLength(stream[1], stream[2..2 + extra]),
              stream[2 + extra..2 + extra + key], stream[2 + extra + key..]))
  }

  lemma SliceOfTail(s: Bytes, start: nat, n: nat)
    requires start + n <= |s|
    ensures s[start..][..n] == s[start..start + n] && s[start..][n..] == s[start + n..]
  {
  }

  lemma HeaderThenPayload(stream: Bytes)
    ensures DecodeHeader(stream) == None ==> Decode(stream) == None
    ensures DecodeHeader(stream).Some? ==>
      var (opcode, length, key, body) := DecodeHeader(stream).value;
      && (|key| == 0 || |key| == 4)
      && Decode(stream) == if |body| < length then None
                           else Some((Frame(opcode, Unmasked(body[..length], key)), body[length..]))
  {
    if DecodeHeader(stream).Some? {
      var start := 2 + ExtraLength(stream[1]) + KeyLength(stream[1]);
      var (_, length, _, body) := DecodeHeader(stream).value;
      if |body| >= length {
        SliceOfTail(stream, start, length);
      }
    }
  }

  /** The extended length, when the second byte announces one. */
  method ReadExtra(socket: Socket, second: bv8) returns (extra: Option<Bytes>)
    modifies socket`incoming
    ensures |old(socket.incoming)| < ExtraLength(second) ==> extra == None
    ensures |old(socket.incoming)| >= ExtraLength(second) ==>
      && extra == Some(old(socket.incoming)[..ExtraLength(second)])
      && socket.incoming == old(socket.incoming)[ExtraLength(second)..]
  {
    extra := Some([]);
    if second & 0x7F == 126 || second & 0x7F == 127 {
      extra := socket.RecvHeader(ExtraLength(second));
    }
  }

  /** The mask key, when the second byte announces one. */
  method ReadKey(socket: Socket, second: bv8) returns (key: Option<Bytes>)
    modifies socket`incoming
    ensures |old(socket.incoming)| < KeyLength(second) ==> key == None
    ensures |old(socket.incoming)| >= KeyLength(second) ==>
      && key == Some(old(socket.incoming)[..KeyLength(second)])
      && socket.incoming == old(socket.incoming)[KeyLength(second)..]
  {
    key := Some([]);
    if second & 0x80 != 0 {
      key := socket.RecvHeader(4);
    }
  }

  method ReadLength(second: bv8, extra: Bytes) returns (length: nat)
    ensures length == PayloadLength(second, extra)
  {
    if extra == [] {
      return (second & 0x7F) as nat;
    }
    length := 0;
    for i := 0 to |extra|
      invariant length == FromBigEndian(extra[..i])
    {
      assert extra[..i + 1][..i] == extra[..i];
      length := length * 256 + extra[i] as nat;
    }
    assert extra[..|extra|] == extra;
  }

  method ReadHeader(socket: Socket) returns (header: Option<(bv8, nat, Bytes)>)
    modifies socket`incoming
    ensures DecodeHeader(old(socket.incoming)) == None <==> header == None
    ensures header.Some? ==>
      DecodeHeader(old(socket.incoming)) == Some((header.value.0, header.value.1, header.value.2, socket.incoming))
  {
    ghost var stream := socket.incoming;
    var first := socket.RecvHeader(2);
    if first == None {
      return None;
    }
    var extra := ReadExtra(socket, first.value[1]);
    if extra == None {
      return None;
    }
    var length := ReadLength(first.value[1], extra.value);
    var key := ReadKey(socket, first.value[1]);
    if key == None {
      return None;
    }
    header := Some((first.value[0] & 0x0F, length, key.value));
    assert stream == first.value + (extra.value + (key.value + socket.incoming));
    HeaderParts(first.value, extra.value, key.value, socket.incoming);
  }

  lemma HeaderParts(first: Bytes, extra: Bytes, key: Bytes, body: Bytes)
    requires |first| == 2 && |extra| == ExtraLength(first[1]) && |key| == KeyLength(first[1])
    ensures DecodeHeader(first + (extra + (key + body)))
         == Some((first[0] & 0x0F, PayloadLength(first[1], extra), key, body))
  {
    var stream, keyAt := first + (extra + (key + body)), 2 + |extra|;
    SplitOff(first, extra + (key + body));
    SplitOff(extra, key + body);
    SplitOff(key, body);
    assert stream[2..keyAt] == stream[2..][..|extra|];
    assert stream[keyAt..] == stream[2..][|extra|..];
    assert stream[keyAt..keyAt + |key|] == stream[keyAt..][..|key|];
    assert stream[keyAt + |key|..] == stream[keyAt..][|key|..];
  }

  lemma SplitOff(a: Bytes, b: Bytes)
    ensures (a + b)[..|a|] == a && (a + b)[|a|..] == b
  {
  }

  /** Takes the mask off, byte by byte in place. */
  method Unmask(payload: Bytes, key: Bytes) returns (plain: Bytes)
    requires |key| == 4
    ensures MaskedBy(payload, plain, key)
  {
    plain := payload;
    for i := 0 to |payload|
      invariant |plain| == |payload|
      invariant forall j :: 0 <= j < i ==> plain[j] == payload[j] ^ key[j % 4]
      invariant forall j :: i <= j < |payload| ==> plain[j] == payload[j]
    {
      plain := plain[i := plain[i] ^ key[i % 4]];
    }
    forall i | 0 <= i < |payload| ensures payload[i] == plain[i] ^ key[i % 4] {
      MaskTwice(payload[i], key[i % 4]);
    }
  }

  lemma MaskTwice(b: bv8, k: bv8)
    ensures (b ^ k) ^ k == b
  {
  }

  /** Reads one client frame and answers it; the peer closing early ends the connection. */
  method PollClientFrame(socket: Socket) returns (result: PollResult)
    modifies socket
    ensures Decode(old(socket.incoming)) == None ==> result == Closed && socket.outgoing == old(socket.outgoing)
    ensures Decode(old(socket.incoming)).Some? ==>
      var (frame, rest) := Decode(old(socket.incoming)).value;
      && socket.incoming == rest
      && (result == Closed <==> frame.opcode == CLOSE)
      && (!socket.failed ==> socket.outgoing == old(socket.outgoing) + Reply(frame))
      && old(socket.outgoing) <= socket.outgoing <= old(socket.outgoing) + Reply(frame)
  {
    HeaderThenPayload(socket.incoming);
    var header := ReadHeader(socket);
    if header == None {
      return Closed;
    }
    var (opcode, length, key) := header.value;
    var payload := ReceivePayload(socket, length);
    if payload == None {
      return Closed;
    }
    var plain := payload.value;
    if key != [] {
      plain := Unmask(payload.value, key);
      MaskUndone(payload.value, plain, key);
    }
    var frame := Frame(opcode, plain);
    if opcode == CLOSE {
      SendControlFrame(socket, CLOSE, []);
      return Closed;
    }
    if opcode == PING {
      SendControlFrame(socket, PONG, frame.payload);
    }
    result := Handled;
  }

  /** However the bytes are cut into reads, the payload is the next `length` bytes. */
  method ReceivePayload(socket: Socket, length: nat) returns (payload: Option<Bytes>)
    modifies socket`incoming
    ensures |old(socket.incoming)| < length ==> payload == None
    ensures |old(socket.incoming)| >= length ==>
      payload == Some(old(socket.incoming)[..length]) && socket.incoming == old(socket.incoming)[length..]
  {
    var received: Bytes := [];
    while |received| < length
      invariant |received| <= length && received + socket.incoming == old(socket.incoming)
      decreases length - |received|
    {
      var chunk := socket.Recv(length - |received|);
      if chunk == [] {
        return None;
      }
      received := received + chunk;
    }
    payload := Some(received);
  }

  /** A ping of up to 125 bytes, under any mask, is answered by a pong that carries it back. */
  lemma PingIsAnswered(payload: Bytes, key: Bytes, masked: Bytes, rest: Bytes)
    requires |key| == 4 && |payload| <= 125 && MaskedBy(masked, payload, key)
    ensures Decode(ClientFrame(0x9, key, masked) + rest) == Some((Frame(0x9, payload), rest))
    ensures Decode(Reply(Frame(0x9, payload))) == Some((Frame(0xA, payload), []))
  {
    ClientRoundTrip(Frame(0x9, payload), key, masked, rest);
    ControlRoundTripIff(0xA, payload);
  }

  /** A close frame is answered by an empty one, and all frames but these two by nothing. */
  lemma OtherReplies(frame: Frame)
    ensures frame.opcode == 0x8 ==> Reply(frame) == [0x88, 0x00]
    ensures Reply(frame) == [] <==> frame.opcode != 0x8 && frame.opcode != 0x9
  {
  }
}
