/** Numbers below 256 as bytes. */
module ByteValues {
  lemma ByteKeepsValue(n: nat)
    requires n < 256
    ensures (n as bv8) as nat == n
  {
  }

  function ByteOf(n: nat): (b: bv8)
    requires n < 256
    ensures b as nat == n
  {
    ByteKeepsValue(n);
    n as bv8
  }

  lemma ByteBelow(n: nat, limit: bv8)
    requires n < 256
    ensures ByteOf(n) < limit <==> n < limit as nat
  {
  }
}

/**
 WebSocket frames (sections 5.2, 5.3 and 5.5 of RFC 6455): the server's encoder, the
 decoder it runs on what clients send, and the socket loops below them.
 */
module Frames {
  import opened Wrappers
  import opened Words
  import opened ByteValues

  // ---------- lengths on the wire ----------

  function Power256(k: nat): (p: nat)
    ensures p >= 1
  {
    if k == 0 then 1 else 256 * Power256(k - 1)
  }

  /** The low `k` bytes of a number, most significant first. */
  function BigEndian(n: nat, k: nat): (bytes: Bytes)
    ensures |bytes| == k
  {
    if k == 0 then [] else BigEndian(n / 256, k - 1) + [ByteOf(n % 256)]
  }

  function FromBigEndian(bytes: Bytes): nat {
    if bytes == [] then 0 else FromBigEndian(bytes[..|bytes| - 1]) * 256 + bytes[|bytes| - 1] as nat
  }

  lemma {:induction false} BigEndianRoundTrip(n: nat, k: nat)
    requires n < Power256(k)
    ensures FromBigEndian(BigEndian(n, k)) == n
  {
    if k > 0 {
      var bytes := BigEndian(n, k);
      BigEndianRoundTrip(n / 256, k - 1);
      assert bytes[..k - 1] == BigEndian(n / 256, k - 1);
    }
  }

  /** Byte `i` of a number, counted from the low end. */
  function ByteAt(n: nat, i: nat): bv8 {
    ByteOf(n / Power256(i) % 256)
  }

  lemma {:induction false} BigEndianAppends(n: nat, i: nat, k: nat)
    requires i < k
    ensures BigEndian(n, k)[k - 1 - i] == ByteAt(n, i)
  {
    if i > 0 {
      BigEndianAppends(n / 256, i - 1, k - 1);
      DivideTwice(n, Power256(i - 1));
    }
  }

  lemma DivideTwice(n: nat, p: nat)
    requires p >= 1
    ensures n / 256 / p == n / (256 * p)
  {
    var q, r := n / (256 * p), n % (256 * p);
    assert n == (256 * p) * q + r;
    assert n / 256 == p * q + r / 256 by {
      assert n == 256 * (p * q) + r;
    }
    assert r / 256 < p;
    assert (p * q + r / 256) / p == q by {
      QuotientOf(p, q, r / 256);
    }
  }

  lemma QuotientOf(p: nat, q: nat, r: nat)
    requires r < p
    ensures (p * q + r) / p == q
  {
    var x := (p * q + r) / p;
    assert p * x + (p * q + r) % p == p * q + r;
    if x < q {
      NextMultiple(p, x, q);
    } else if x > q {
      NextMultiple(p, q, x);
    }
  }

  lemma {:induction false} NextMultiple(p: nat, x: nat, q: nat)
    requires x < q
    ensures p * x + p <= p * q
    decreases q
  {
    if q > x + 1 {
      NextMultiple(p, x, q - 1);
    }
  }

  /** Pushes the eight bytes of a number, from the high end, as `>> (i * 8)` gives them. */
  method PushUint64(data: Bytes, n: nat) returns (more: Bytes)
    requires n < TWO_64
    ensures more == data + BigEndian(n, 8)
  {
    more := data;
    var i := 7;
    while i >= 0
      invariant -1 <= i <= 7
      invariant more == data + BigEndian(n, 8)[..7 - i]
    {
      BigEndianAppends(n, i, 8);
      more := more + [ByteAt(n, i)];
      i := i - 1;
    }
    assert BigEndian(n, 8)[..8] == BigEndian(n, 8);
  }

  // ---------- frames ----------

  datatype Frame = Frame(opcode: bv8, payload: Bytes)

  const TEXT: bv8 := 0x1
  const CLOSE: bv8 := 0x8
  const PING: bv8 := 0x9
  const PONG: bv8 := 0xA

  /** The length byte, under the mask flag, and the extended length. */
  function LengthField(length: nat, flag: bv8): Bytes {
    if length < 126 then [flag | ByteOf(length)]
    else if length <= 0xFFFF then [flag | 126] + BigEndian(length, 2)
    else [flag | 127] + BigEndian(length, 8)
  }

  /** An unmasked final text frame. */
  function TextFrame(payload: Bytes): Bytes {
    [0x80 | TEXT] + LengthField(|payload|, 0) + payload
  }

  /** The server's control frames: the length is cut to seven bits. */
  function ControlFrame(opcode: bv8, payload: Bytes): Bytes {
    [0x80 | opcode, ByteOf(|payload| % 256) & 0x7F] + payload
  }

  /** Byte `i` of the masked payload is byte `i` of the payload, under byte `i` modulo 4 of the key
      (section 5.3). */
  ghost predicate MaskedBy(masked: Bytes, payload: Bytes, key: Bytes)
    requires |key| == 4
  {
    |masked| == |payload| && forall i :: 0 <= i < |payload| ==> masked[i] == payload[i] ^ key[i % 4]
  }

  /** A frame as a client sends it: the mask flag, the key, and the payload under it. */
  function ClientFrame(opcode: bv8, key: Bytes, masked: Bytes): Bytes {
    [0x80 | opcode] + LengthField(|masked|, 0x80) + key + masked
  }

  // ---------- decoding ----------

  /** How many bytes of extended length the second byte announces. */
  function ExtraLength(second: bv8): nat {
    if second & 0x7F == 126 then 2 else if second & 0x7F == 127 then 8 else 0
  }

  function KeyLength(second: bv8): nat {
    if second & 0x80 != 0 then 4 else 0
  }

  function PayloadLength(second: bv8, extra: Bytes): nat {
    if extra == [] then (second & 0x7F) as nat else FromBigEndian(extra)
  }

  function Unmasked(payload: Bytes, key: Bytes): Bytes
    requires |key| == 0 || |key| == 4
  {
    if key == [] then payload else seq(|payload|, i requires 0 <= i < |payload| => payload[i] ^ key[i % 4])
  }

  /** The first frame of a byte stream and what follows it; None when the stream ends early. */
  function Decode(stream: Bytes): Option<(Frame, Bytes)> {
    if |stream| < 2 then None
    else
      var extra, key := ExtraLength(stream[1]), KeyLength(stream[1]);
      if |stream| < 2 + extra + key then None
      else
        var length := PayloadLength(stream[1], stream[2..2 + extra]);
        var start := 2 + extra + key;
        if |stream| < start + length then None
        else
          var payload := stream[start..start + length];
          Some((Frame(stream[0] & 0x0F, Unmasked(payload, stream[2 + extra..start])), stream[start + length..]))
  }

  // ---------- round trips ----------

  lemma LengthByteBits(flag: bv8, b: bv8)
    requires (flag == 0 || flag == 0x80) && b <= 127
    ensures (flag | b) & 0x7F == b && (flag | b) & 0x80 == flag
  {
  }

  lemma ExtendedLengths(length: nat)
    ensures length <= 0xFFFF ==> FromBigEndian(BigEndian(length, 2)) == length
    ensures length < TWO_64 ==> FromBigEndian(BigEndian(length, 8)) == length
  {
    assert Power256(2) == 65536;
    assert Power256(8) == TWO_64 by {
      assert Power256(4) == 0x1_0000_0000;
    }
    if length <= 0xFFFF {
      BigEndianRoundTrip(length, 2);
    }
    if length < TWO_64 {
      BigEndianRoundTrip(length, 8);
    }
  }

  lemma LengthFieldDecodes(length: nat, flag: bv8)
    requires length < TWO_64 && (flag == 0 || flag == 0x80)
    ensures var field := LengthField(length, flag);
      && |field| == 1 + ExtraLength(field[0])
      && KeyLength(field[0]) == (if flag == 0 then 0 else 4)
      && PayloadLength(field[0], field[1..]) == length
  {
    var field := LengthField(length, flag);
    if length < 126 {
      ByteBelow(length, 126);
      LengthByteBits(flag, ByteOf(length));
    } else if length <= 0xFFFF {
      LengthByteBits(flag, 126);
      ExtendedLengths(length);
      assert field[1..] == BigEndian(length, 2);
    } else {
      LengthByteBits(flag, 127);
      ExtendedLengths(length);
      assert field[1..] == BigEndian(length, 8);
    }
  }

  /** The decoder takes the mask off. */
  lemma MaskUndone(masked: Bytes, payload: Bytes, key: Bytes)
    requires |key| == 4 && MaskedBy(masked, payload, key)
    ensures Unmasked(masked, key) == payload
  {
    forall i | 0 <= i < |payload| ensures Unmasked(masked, key)[i] == payload[i] {
      assert (payload[i] ^ key[i % 4]) ^ key[i % 4] == payload[i];
    }
  }

  /** Decoding any header built from a length field. */
  lemma FrameDecodes(first: bv8, flag: bv8, key: Bytes, body: Bytes, rest: Bytes)
    requires |body| < TWO_64 && ((flag == 0 && key == []) || (flag == 0x80 && |key| == 4))
    ensures Decode([first] + LengthField(|body|, flag) + key + body + rest)
         == Some((Frame(first & 0x0F, Unmasked(body, key)), rest))
  {
    var field := LengthField(|body|, flag);
    var stream := [first] + field + key + body + rest;
    LengthFieldDecodes(|body|, flag);
    FrameSlices(first, field, key, body, rest);
  }

  lemma FrameSlices(first: bv8, field: Bytes, key: Bytes, body: Bytes, rest: Bytes)
    requires field != []
    ensures var stream, keyAt, bodyAt := [first] + field + key + body + rest, 1 + |field|, 1 + |field| + |key|;
      && stream[0] == first && stream[1] == field[0] && stream[2..keyAt] == field[1..]
      && stream[keyAt..bodyAt] == key && stream[bodyAt..bodyAt + |body|] == body && stream[bodyAt + |body|..] == rest
  {
  }

  /** A text frame decodes to its payload, and the bytes after it are untouched. */
  lemma TextRoundTrip(payload: Bytes, rest: Bytes)
    requires |payload| < TWO_64
    ensures Decode(TextFrame(payload) + rest) == Some((Frame(TEXT, payload), rest))
  {
    FrameDecodes(0x80 | TEXT, 0, [], payload, rest);
    assert [0x80 | TEXT] + LengthField(|payload|, 0) + [] + payload + rest == TextFrame(payload) + rest;
  }

  /** The decoder undoes every mask, for every opcode. */
  lemma ClientRoundTrip(frame: Frame, key: Bytes, masked: Bytes, rest: Bytes)
    requires |key| == 4 && |frame.payload| < TWO_64 && frame.opcode < 16 && MaskedBy(masked, frame.payload, key)
    ensures Decode(ClientFrame(frame.opcode, key, masked) + rest) == Some((frame, rest))
  {
    FrameDecodes(0x80 | frame.opcode, 0x80, key, masked, rest);
    MaskUndone(masked, frame.payload, key);
    FirstByteIsFinal(frame.opcode);
  }

  /** What the server sends is a final frame without reserved bits, with the opcode of section
      5.2 and no mask. */
  lemma ServerFrameHeaders(payload: Bytes, opcode: bv8)
    requires |payload| < TWO_64 && opcode < 16
    ensures var frame := TextFrame(payload);
      frame[0] & 0x80 != 0 && frame[0] & 0x70 == 0 && frame[0] & 0x0F == 0x1 && frame[1] & 0x80 == 0
    ensures var frame := ControlFrame(opcode, payload);
      frame[0] & 0x80 != 0 && frame[0] & 0x70 == 0 && frame[0] & 0x0F == opcode && frame[1] & 0x80 == 0
  {
    LengthFieldDecodes(|payload|, 0);
    assert TextFrame(payload)[1] == LengthField(|payload|, 0)[0];
    FirstByteIsFinal(opcode);
    LengthByteIsPlain(ByteOf(|payload| % 256));
  }

  lemma FirstByteIsFinal(opcode: bv8)
    requires opcode < 16
    ensures var b := 0x80 | opcode; b & 0x80 != 0 && b & 0x70 == 0 && b & 0x0F == opcode
  {
  }

  lemma LengthByteIsPlain(b: bv8)
    ensures (b & 0x7F) & 0x80 == 0
  {
  }

  const HELLO: Bytes := [0x48, 0x65, 0x6c, 0x6c, 0x6f]

  /** The examples of section 5.7: "Hello" as an unmasked text message and as a ping, ... */
  lemma StandardFrames()
    ensures TextFrame(HELLO) == [0x81, 0x05, 0x48, 0x65, 0x6c, 0x6c, 0x6f]
    ensures ControlFrame(PING, HELLO) == [0x89, 0x05, 0x48, 0x65, 0x6c, 0x6c, 0x6f]
  {
    assert ByteOf(5) == 5;
  }

  const EXAMPLE_KEY: Bytes := [0x37, 0xfa, 0x21, 0x3d]
  const MASKED_HELLO: Bytes := [0x7f, 0x9f, 0x4d, 0x51, 0x58]

  /** ... as a masked message of any kind, ... */
  lemma StandardMaskedFrame(opcode: bv8)
    requires opcode < 16
    ensures Decode([0x80 | opcode, 0x85] + EXAMPLE_KEY + MASKED_HELLO) == Some((Frame(opcode, HELLO), []))
  {
    HelloIsMasked();
    ClientRoundTrip(Frame(opcode, HELLO), EXAMPLE_KEY, MASKED_HELLO, []);
    assert ByteOf(5) == 5;
    assert ClientFrame(opcode, EXAMPLE_KEY, MASKED_HELLO) + []
        == [0x80 | opcode, 0x85] + EXAMPLE_KEY + MASKED_HELLO;
  }

  lemma HelloIsMasked()
    ensures MaskedBy(MASKED_HELLO, HELLO, EXAMPLE_KEY)
  {
  }

  /** ... and the two longer length forms. */
  lemma StandardLengths()
    ensures LengthField(256, 0) == [0x7E, 0x01, 0x00]
    ensures LengthField(65536, 0) == [0x7F, 0x00, 0x00, 0x00, 0x00, 0x00, 0x01, 0x00, 0x00]
  {
  }

  function Stream(payloads: seq<Bytes>): Bytes {
    if payloads == [] then [] else TextFrame(payloads[0]) + Stream(payloads[1..])
  }

  /** Every frame of a stream; None when it does not end with a whole frame. */
  function DecodeAll(stream: Bytes): Option<seq<Frame>>
    decreases |stream|
  {
    if stream == [] then Some([])
    else
      match Decode(stream)
      case None => None
      case Some((frame, rest)) =>
        match DecodeAll(rest)
        case None => None
        case Some(frames) => Some([frame] + frames)
  }

  function TextFrames(payloads: seq<Bytes>): seq<Frame> {
    if payloads == [] then [] else [Frame(TEXT, payloads[0])] + TextFrames(payloads[1..])
  }

  /** A stream of text frames decodes to the payloads, in order, and nothing is left over. */
  lemma {:induction false} StreamRoundTrip(payloads: seq<Bytes>)
    requires forall i :: 0 <= i < |payloads| ==> |payloads[i]| < TWO_64
    ensures DecodeAll(Stream(payloads)) == Some(TextFrames(payloads))
  {
    if payloads != [] {
      TextRoundTrip(payloads[0], Stream(payloads[1..]));
      StreamRoundTrip(payloads[1..]);
      assert |TextFrame(payloads[0])| >= 2;
    }
  }

  lemma {:induction false} FromBigEndianBound(bytes: Bytes)
    ensures FromBigEndian(bytes) < Power256(|bytes|)
  {
    if bytes != [] {
      FromBigEndianBound(bytes[..|bytes| - 1]);
    }
  }

  /** The length form is the shortest: no frame that carries this payload has fewer bytes. */
  lemma TextFrameIsShortest(payload: Bytes, other: Bytes, opcode: bv8)
    requires Decode(other) == Some((Frame(opcode, payload), []))
    ensures |TextFrame(payload)| <= |other|
  {
    var extra := other[2..2 + ExtraLength(other[1])];
    FromBigEndianBound(extra);
    assert Power256(2) == 65536;
    assert (other[1] & 0x7F) as nat <= 127;
  }

  /** A control frame decodes to its payload exactly when the payload fits the seven-bit
      length without an extension (section 5.5). */
  lemma ControlRoundTripIff(opcode: bv8, payload: Bytes)
    requires opcode < 16
    ensures Decode(ControlFrame(opcode, payload)) == Some((Frame(opcode, payload), [])) <==> |payload| <= 125
  {
    if |payload| <= 125 {
      ShortControlDecodes(opcode, payload);
    } else if Decode(ControlFrame(opcode, payload)) == Some((Frame(opcode, payload), [])) {
      TextFrameIsShortest(payload, ControlFrame(opcode, payload), opcode);
      assert false;
    }
  }

  lemma ShortControlDecodes(opcode: bv8, payload: Bytes)
    requires opcode < 16 && |payload| <= 125
    ensures Decode(ControlFrame(opcode, payload)) == Some((Frame(opcode, payload), []))
  {
    ShortLengthByte(|payload|);
    FirstByteIsFinal(opcode);
    FrameDecodes(0x80 | opcode, 0, [], payload, []);
    TwoByteHeader(0x80 | opcode, ByteOf(|payload| % 256) & 0x7F, payload);
  }

  lemma TwoByteHeader(first: bv8, second: bv8, payload: Bytes)
    ensures [first, second] + payload == [first] + [second] + [] + payload + []
  {
  }

  lemma ShortLengthByte(length: nat)
    requires length < 126
    ensures [ByteOf(length % 256) & 0x7F] == LengthField(length, 0)
  {
    ByteBelow(length, 126);
    LengthByteBits(0, ByteOf(length));
    assert 0 | ByteOf(length) == ByteOf(length);
  }
}
