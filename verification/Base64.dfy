/**
 The base64 encoder of the WebSocket handshake (section 4 of RFC 4648), proved exact against
 a decoder written from the standard.
 */
module Base64 {
  import opened Words
  import opened ByteValues
  import opened Wrappers

  // ---------- letters ----------

  function Six(n: nat): (s: bv8)
    requires n < 64
    ensures s < 64 && s as nat == n
  {
    ByteBelow(n, 64);
    ByteOf(n)
  }

  /** The alphabet, in the order the encoder's table spells it. */
  function Alphabet(n: nat): char
    requires n < 64
  {
    if n < 26 then ('A' as int + n) as char
    else if n < 52 then ('a' as int + n - 26) as char
    else if n < 62 then ('0' as int + n - 52) as char
    else if n == 62 then '+'
    else '/'
  }

  /** The standard's table read backwards. */
  function PositionOf(c: char): (n: Option<nat>)
    ensures n.Some? ==> n.value < 64 && Alphabet(n.value) == c && c != '='
  {
    if 'A' <= c <= 'Z' then Some(c as int - 'A' as int)
    else if 'a' <= c <= 'z' then Some(c as int - 'a' as int + 26)
    else if '0' <= c <= '9' then Some(c as int - '0' as int + 52)
    else if c == '+' then Some(62)
    else if c == '/' then Some(63)
    else None
  }

  function Letter(i: bv8): char
    requires i < 64
  {
    Alphabet(i as nat)
  }

  function LetterValue(c: char): Option<bv8> {
    match PositionOf(c)
    case None => None
    case Some(n) => Some(Six(n))
  }

  lemma SixBack(i: bv8)
    requires i < 64
    ensures i as nat < 64 && Six(i as nat) == i
  {
  }

  lemma LetterRoundTrip(i: bv8)
    requires i < 64
    ensures LetterValue(Letter(i)) == Some(i) && Letter(i) != '='
  {
    SixBack(i);
  }

  lemma ValueRoundTrip(c: char)
    requires LetterValue(c).Some?
    ensures LetterValue(c).value < 64 && Letter(LetterValue(c).value) == c && c != '='
  {
  }

  // ---------- one group ----------

  function Pack(a: bv8, b: bv8, c: bv8): bv32 {
    ((a as bv32) << 16) | ((b as bv32) << 8) | (c as bv32)
  }

  function Sextet(n: bv32, shift: nat): (s: bv8)
    requires shift <= 18
    ensures s < 64
  {
    ((n >> shift) & 0x3F) as bv8
  }

  /** Four letters for one to three bytes; missing bytes count as zero and missing letters are padding. */
  function Group(bytes: Bytes): (text: string)
    ensures |text| == 4
  {
    var n := Pack(if |bytes| > 0 then bytes[0] else 0, if |bytes| > 1 then bytes[1] else 0,
                  if |bytes| > 2 then bytes[2] else 0);
    [Letter(Sextet(n, 18)), Letter(Sextet(n, 12)),
     if |bytes| > 1 then Letter(Sextet(n, 6)) else '=', if |bytes| > 2 then Letter(Sextet(n, 0)) else '=']
  }

  /** Four sextets side by side. */
  function Joined(a: bv8, b: bv8, c: bv8, d: bv8): bv32 {
    ((a as bv32) << 18) | ((b as bv32) << 12) | ((c as bv32) << 6) | (d as bv32)
  }

  function High(n: bv32): bv8 { ((n >> 16) & 0xFF) as bv8 }
  function Middle(n: bv32): bv8 { ((n >> 8) & 0xFF) as bv8 }
  function Low(n: bv32): bv8 { (n & 0xFF) as bv8 }

  /** The standard's reading of one group; the bits that padding leaves over must be zero. */
  function DecodedGroup(text: string): Option<Bytes> {
    if |text| != 4 then None
    else
      match (LetterValue(text[0]), LetterValue(text[1]))
      case (Some(a), Some(b)) =>
        if text[2] == '=' && text[3] == '=' then
          if b & 0xF != 0 then None else Some([High(Joined(a, b, 0, 0))])
        else
          (match LetterValue(text[2])
           case None => None
           case Some(c) =>
             if text[3] == '=' then
               if c & 0x3 != 0 then None else Some([High(Joined(a, b, c, 0)), Middle(Joined(a, b, c, 0))])
             else
               match LetterValue(text[3])
               case None => None
               case Some(d) => var n := Joined(a, b, c, d); Some([High(n), Middle(n), Low(n)]))
      case _ => None
  }

  lemma PackBytes(a: bv8, b: bv8, c: bv8)
    ensures var n := Pack(a, b, c); n < 0x1000000 && High(n) == a && Middle(n) == b && Low(n) == c
  {
  }

  lemma SextetWidens(n: bv32, shift: nat)
    requires shift <= 18
    ensures Sextet(n, shift) as bv32 == (n >> shift) & 0x3F
  {
  }

  lemma FieldsJoin(n: bv32)
    requires n < 0x1000000
    ensures (((n >> 18) & 0x3F) << 18) | (((n >> 12) & 0x3F) << 12) | (((n >> 6) & 0x3F) << 6) | ((n >> 0) & 0x3F) == n
  {
  }

  lemma SextetsJoin(n: bv32)
    requires n < 0x1000000
    ensures Joined(Sextet(n, 18), Sextet(n, 12), Sextet(n, 6), Sextet(n, 0)) == n
  {
    SextetWidens(n, 18);
    SextetWidens(n, 12);
    SextetWidens(n, 6);
    SextetWidens(n, 0);
    FieldsJoin(n);
  }

  lemma TwoBytesLeaveZeros(a: bv8, b: bv8)
    ensures var n := Pack(a, b, 0); Sextet(n, 0) == 0 && Sextet(n, 6) & 0x3 == 0
  {
  }

  lemma OneByteLeavesZeros(a: bv8)
    ensures var n := Pack(a, 0, 0); Sextet(n, 6) == 0 && Sextet(n, 12) & 0xF == 0
  {
  }

  lemma BytesRepack(a: bv8, b: bv8, c: bv8, d: bv8)
    requires a < 64 && b < 64 && c < 64 && d < 64
    ensures var n := Joined(a, b, c, d); Pack(High(n), Middle(n), Low(n)) == n
  {
  }

  lemma JoinedSextets(a: bv8, b: bv8, c: bv8, d: bv8)
    requires a < 64 && b < 64 && c < 64 && d < 64
    ensures var n := Joined(a, b, c, d);
      Sextet(n, 18) == a && Sextet(n, 12) == b && Sextet(n, 6) == c && Sextet(n, 0) == d
  {
  }

  lemma PaddingLeavesZero(a: bv8, b: bv8, c: bv8)
    requires a < 64 && b < 64 && c < 64
    ensures c & 0x3 == 0 ==> Low(Joined(a, b, c, 0)) == 0
    ensures c == 0 && b & 0xF == 0 ==> Middle(Joined(a, b, c, 0)) == 0
  {
  }

  lemma SextetLetters(n: bv32)
    ensures LetterValue(Letter(Sextet(n, 18))) == Some(Sextet(n, 18))
      && LetterValue(Letter(Sextet(n, 12))) == Some(Sextet(n, 12))
    ensures LetterValue(Letter(Sextet(n, 6))) == Some(Sextet(n, 6)) && Letter(Sextet(n, 6)) != '='
    ensures LetterValue(Letter(Sextet(n, 0))) == Some(Sextet(n, 0)) && Letter(Sextet(n, 0)) != '='
  {
    LetterRoundTrip(Sextet(n, 18));
    LetterRoundTrip(Sextet(n, 12));
    LetterRoundTrip(Sextet(n, 6));
    LetterRoundTrip(Sextet(n, 0));
  }

  /** The two directions of one group. */
  lemma GroupRoundTrip(bytes: Bytes)
    requires 1 <= |bytes| <= 3
    ensures DecodedGroup(Group(bytes)) == Some(bytes)
  {
    if |bytes| == 3 {
      SextetLetters(Pack(bytes[0], bytes[1], bytes[2]));
      PackBytes(bytes[0], bytes[1], bytes[2]);
      SextetsJoin(Pack(bytes[0], bytes[1], bytes[2]));
      assert bytes == [bytes[0], bytes[1], bytes[2]];
    } else if |bytes| == 2 {
      SextetLetters(Pack(bytes[0], bytes[1], 0));
      PackBytes(bytes[0], bytes[1], 0);
      SextetsJoin(Pack(bytes[0], bytes[1], 0));
      TwoBytesLeaveZeros(bytes[0], bytes[1]);
      assert bytes == [bytes[0], bytes[1]];
    } else {
      SextetLetters(Pack(bytes[0], 0, 0));
      PackBytes(bytes[0], 0, 0);
      SextetsJoin(Pack(bytes[0], 0, 0));
      TwoBytesLeaveZeros(bytes[0], 0);
      OneByteLeavesZeros(bytes[0]);
      assert bytes == [bytes[0]];
    }
  }

  lemma GroupIsEncoded(text: string)
    requires DecodedGroup(text).Some?
    ensures 1 <= |DecodedGroup(text).value| <= 3 && Group(DecodedGroup(text).value) == text
  {
    var a, b := LetterValue(text[0]).value, LetterValue(text[1]).value;
    ValueRoundTrip(text[0]);
    ValueRoundTrip(text[1]);
    var c := if LetterValue(text[2]).Some? then LetterValue(text[2]).value else 0;
    var d := if LetterValue(text[3]).Some? then LetterValue(text[3]).value else 0;
    if LetterValue(text[2]).Some? {
      ValueRoundTrip(text[2]);
    }
    if LetterValue(text[3]).Some? {
      ValueRoundTrip(text[3]);
    }
    BytesRepack(a, b, c, d);
    JoinedSextets(a, b, c, d);
    PaddingLeavesZero(a, b, c);
  }

  // ---------- whole texts, for any group coder ----------

  function EncodeAll(data: Bytes, enc: Bytes -> string): string {
    if data == [] then ""
    else if |data| <= 3 then enc(data)
    else enc(data[..3]) + EncodeAll(data[3..], enc)
  }

  /** Groups of fewer than three bytes may come last alone. */
  function DecodeAll(text: string, dec: string -> Option<Bytes>): Option<Bytes> {
    if text == "" then Some([])
    else if |text| < 4 then None
    else
      match dec(text[..4])
      case None => None
      case Some(first) =>
        if |text| == 4 then Some(first)
        else if |first| != 3 then None
        else
          match DecodeAll(text[4..], dec)
          case None => None
          case Some(rest) => Some(first + rest)
  }

  lemma EncodeStep(data: Bytes, i: nat, enc: Bytes -> string)
    requires i + 3 <= |data|
    ensures EncodeAll(data[i..], enc) == enc(data[i..i + 3]) + EncodeAll(data[i + 3..], enc)
  {
    var tail := data[i..];
    assert tail[..3] == data[i..i + 3] && tail[3..] == data[i + 3..];
    if |tail| == 3 {
      assert tail == tail[..3];
    }
  }

  lemma StringsAssociate(a: string, b: string, c: string)
    ensures (a + b) + c == a + (b + c)
  {
  }

  ghost predicate Inverse(enc: Bytes -> string, dec: string -> Option<Bytes>) {
    && (forall b: Bytes :: 1 <= |b| <= 3 ==> |enc(b)| == 4 && dec(enc(b)) == Some(b))
    && (forall t: string :: dec(t).Some? ==> |t| == 4 && 1 <= |dec(t).value| <= 3 && enc(dec(t).value) == t)
  }

  lemma {:induction false} AllRoundTrip(data: Bytes, enc: Bytes -> string, dec: string -> Option<Bytes>)
    requires Inverse(enc, dec)
    ensures DecodeAll(EncodeAll(data, enc), dec) == Some(data)
  {
    if |data| > 3 {
      var text := EncodeAll(data, enc);
      AllRoundTrip(data[3..], enc, dec);
      assert text[..4] == enc(data[..3]) && text[4..] == EncodeAll(data[3..], enc);
      assert data == data[..3] + data[3..];
    } else if data != [] {
      var text := EncodeAll(data, enc);
      assert text[..4] == text;
    }
  }

  lemma {:induction false} AllLength(data: Bytes, enc: Bytes -> string)
    requires forall b: Bytes :: 1 <= |b| <= 3 ==> |enc(b)| == 4
    ensures |EncodeAll(data, enc)| == (|data| + 2) / 3 * 4
  {
    if |data| > 3 {
      AllLength(data[3..], enc);
    }
  }

  lemma {:induction false} AllIsEncoded(text: string, enc: Bytes -> string, dec: string -> Option<Bytes>)
    requires Inverse(enc, dec) && DecodeAll(text, dec).Some?
    ensures EncodeAll(DecodeAll(text, dec).value, enc) == text
  {
    if text != "" {
      var first := dec(text[..4]).value;
      if |text| == 4 {
        assert text[..4] == text;
      } else {
        AllIsEncoded(text[4..], enc, dec);
        var data := DecodeAll(text, dec).value;
        var rest := DecodeAll(text[4..], dec).value;
        assert rest != [];
        assert data[..3] == first && data[3..] == rest;
        assert text == text[..4] + text[4..];
      }
    }
  }

  // ---------- the encoder ----------

  const GROUP: Bytes -> string := b => Group(b)
  const DECODED_GROUP: string -> Option<Bytes> := t => DecodedGroup(t)

  function Encoded(data: Bytes): string {
    EncodeAll(data, GROUP)
  }

  function Decoded(text: string): Option<Bytes> {
    DecodeAll(text, DECODED_GROUP)
  }

  lemma GroupsInverse()
    ensures Inverse(GROUP, DECODED_GROUP)
  {
    forall b: Bytes | 1 <= |b| <= 3 ensures |GROUP(b)| == 4 && DECODED_GROUP(GROUP(b)) == Some(b) {
      GroupRoundTrip(b);
    }
    forall t: string | DECODED_GROUP(t).Some?
      ensures |t| == 4 && 1 <= |DECODED_GROUP(t).value| <= 3 && GROUP(DECODED_GROUP(t).value) == t
    {
      GroupIsEncoded(t);
    }
  }

  /** The encoder's texts are exactly the texts the standard's decoder accepts, each for its
      own bytes, with four letters for every three bytes begun. */
  lemma EncodedIffDecoded(text: string, data: Bytes)
    ensures Decoded(text) == Some(data) <==> text == Encoded(data)
    ensures |Encoded(data)| == (|data| + 2) / 3 * 4
  {
    GroupsInverse();
    AllRoundTrip(data, GROUP, DECODED_GROUP);
    AllLength(data, GROUP);
    if Decoded(text) == Some(data) {
      AllIsEncoded(text, GROUP, DECODED_GROUP);
    }
  }

  lemma EncodedInjective(a: Bytes, b: Bytes)
    requires Encoded(a) == Encoded(b)
    ensures a == b
  {
    EncodedIffDecoded(Encoded(a), a);
    EncodedIffDecoded(Encoded(b), b);
  }

  method Encode(data: Bytes) returns (out: string)
    ensures out == Encoded(data)
  {
    out := "";
    var i := 0;
    while i + 3 <= |data|
      invariant 0 <= i <= |data|
      invariant out + EncodeAll(data[i..], GROUP) == Encoded(data)
    {
      EncodeStep(data, i, GROUP);
      StringsAssociate(out, Group(data[i..i + 3]), EncodeAll(data[i + 3..], GROUP));
      out := out + Group(data[i..i + 3]);
      i := i + 3;
    }
    if i < |data| {
      out := out + Group(data[i..]);
    }
  }

  // ---------- the standard's table and test vectors ----------

  /** Table 1 of RFC 4648: two runs of letters, the digits, and two signs. */
  lemma AlphabetTable(n: nat)
    requires n < 64
    ensures n < 26 ==> Alphabet(n) == "ABCDEFGHIJKLMNOPQRSTUVWXYZ"[n]
    ensures 26 <= n < 52 ==> Alphabet(n) == "abcdefghijklmnopqrstuvwxyz"[n - 26]
    ensures 52 <= n < 62 ==> Alphabet(n) == "0123456789"[n - 52]
    ensures n >= 62 ==> Alphabet(n) == "+/"[n - 62]
  {
  }

  /** The test vectors of section 10. */
  lemma TestVectors()
    ensures Group([0x66]) == "Zg==" && Group([0x66, 0x6f]) == "Zm8=" && Group([0x66, 0x6f, 0x6f]) == "Zm9v"
    ensures Group([0x62]) == "Yg==" && Group([0x62, 0x61]) == "YmE=" && Group([0x62, 0x61, 0x72]) == "YmFy"
  {
  }

  /** All six letters of "foobar". */
  lemma FoobarEncoded()
    ensures Encoded([]) == "" && Encoded([0x66, 0x6f, 0x6f, 0x62, 0x61, 0x72]) == "Zm9vYmFy"
  {
    TestVectors();
    var foobar: Bytes := [0x66, 0x6f, 0x6f, 0x62, 0x61, 0x72];
    assert foobar[..3] == [0x66, 0x6f, 0x6f] && foobar[3..] == [0x62, 0x61, 0x72];
  }
}
