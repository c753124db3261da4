/**
 The packed process image: three fixed byte arrays (%I, %Q, %M) that are read and
 written bit by bit through masks.  The abstract value of a map is the set of the
 signals that are 1.
 */
module ProcessImage {
  import opened Words
  import opened Wrappers

  datatype Area = Input | Output | Memory

  /** A local signal reference: area, byte offset, bit index. */
  datatype SignalRef = SignalRef(area: Area, byte: nat, bit: nat)

  /** The signals that are 1. */
  type Image = iset<SignalRef>

  /** The two exceptions of the map, and the accesses its bounds test lets through although they
      lie outside the area: there the behaviour of the source is undefined. */
  datatype MemoryError = OutOfRange | InvalidBit | WildAccess

  const INPUT_SIZE := 512
  const OUTPUT_SIZE := 512
  const MEMORY_SIZE := 1024

  function AreaSize(area: Area): nat {
    match area
    case Input => INPUT_SIZE
    case Output => OUTPUT_SIZE
    case Memory => MEMORY_SIZE
  }

  predicate InRange(r: SignalRef) {
    r.byte < AreaSize(r.area) && r.bit <= 7
  }

  /** The image after one bit has been written. */
  ghost function Write(m: Image, r: SignalRef, value: bool): Image {
    if value then m + iset{r} else m - iset{r}
  }

  // ---------- bits of a byte ----------

  function Mask(bit: nat): bv8
    requires bit <= 7
  {
    (1 as bv8) << bit
  }

  predicate BitOf(v: bv8, bit: nat)
    requires bit <= 7
  {
    (v & Mask(bit)) != 0
  }

  function WithBit(v: bv8, bit: nat, value: bool): bv8
    requires bit <= 7
  {
    if value then v | Mask(bit) else v & !Mask(bit)
  }

  /** Writing a bit through its mask sets that bit and no other. */
  lemma WithBitSetsOneBit(v: bv8, bit: nat, value: bool, other: nat)
    requires bit <= 7 && other <= 7
    ensures BitOf(WithBit(v, bit, value), other) == if other == bit then value else BitOf(v, other)
  {
    if value {
      assert (v | Mask(bit)) & Mask(other) == (v & Mask(other)) | (Mask(bit) & Mask(other));
    } else {
      assert (v & !Mask(bit)) & Mask(other) == (v & Mask(other)) & !Mask(bit);
    }
  }

  // ---------- which bit of a byte an index means ----------

  /** Bit `bit` of a byte, counted from its low end. */
  predicate LowBit(v: bv8, bit: nat)
    requires bit <= 7
  {
    (v >> bit) & 1 == 1
  }

  /** That is the bit the masks select. */
  lemma BitIsLowBit(v: bv8, bit: nat)
    requires bit <= 7
    ensures BitOf(v, bit) <==> LowBit(v, bit)
  {
  }

  function PowerOfTwo(bit: nat): int {
    if bit == 0 then 1 else 2 * PowerOfTwo(bit - 1)
  }

  lemma MaskValue(bit: nat)
    requires bit <= 7
    ensures Mask(bit) as nat == PowerOfTwo(bit) && Mask(bit) != 0 && Mask(bit) & (Mask(bit) - 1) == 0
  {
    assert Mask(0) == 0x01 && Mask(1) == 0x02 && Mask(2) == 0x04 && Mask(3) == 0x08;
    assert Mask(4) == 0x10 && Mask(5) == 0x20 && Mask(6) == 0x40 && Mask(7) == 0x80;
    assert PowerOfTwo(3) == 8 && PowerOfTwo(7) == 128;
    assert bit == 0 || bit == 1 || bit == 2 || bit == 3 || bit == 4 || bit == 5 || bit == 6 || bit == 7;
  }

  /** Setting a bit that was off adds 2^bit to the byte... */
  lemma SetBitAdds(v: bv8, bit: nat)
    requires bit <= 7 && !BitOf(v, bit)
    ensures WithBit(v, bit, true) as int == v as int + PowerOfTwo(bit) && WithBit(v, bit, false) == v
  {
    MaskValue(bit);
    MaskAdds(v, Mask(bit));
  }

  /** ... and clearing one that was on takes it away. */
  lemma ClearedBitSubtracts(v: bv8, bit: nat)
    requires bit <= 7 && BitOf(v, bit)
    ensures WithBit(v, bit, false) as int == v as int - PowerOfTwo(bit) && WithBit(v, bit, true) == v
  {
    MaskValue(bit);
    MaskSubtracts(v, Mask(bit));
  }

  lemma MaskAdds(v: bv8, mask: bv8)
    requires v & mask == 0
    ensures (v | mask) as int == v as int + mask as int && v & !mask == v
  {
  }

  lemma MaskSubtracts(v: bv8, mask: bv8)
    requires v & mask != 0 && mask & (mask - 1) == 0
    ensures (v & !mask) as int == v as int - mask as int && v | mask == v
  {
  }

  /** `now` is `was` with bit `bit` of byte `i`, counted from the low end, set to `value`. */
  ghost predicate StoresBit(was: seq<bv8>, now: seq<bv8>, i: nat, bit: nat, value: bool)
    requires i < |was| && bit <= 7
  {
    && |now| == |was| && (forall j :: 0 <= j < |was| && j != i ==> now[j] == was[j])
    && LowBit(now[i], bit) == value
    && forall other: nat :: other <= 7 && other != bit ==> LowBit(now[i], other) == LowBit(was[i], other)
  }

  lemma WithBitStores(bytes: seq<bv8>, i: nat, bit: nat, value: bool)
    requires i < |bytes| && bit <= 7
    ensures StoresBit(bytes, bytes[i := WithBit(bytes[i], bit, value)], i, bit, value)
  {
    var v, w := bytes[i], WithBit(bytes[i], bit, value);
    forall other: nat | other <= 7
      ensures LowBit(w, other) == if other == bit then value else LowBit(v, other)
    {
      WithBitSetsOneBit(v, bit, value, other);
      BitIsLowBit(v, other);
      BitIsLowBit(w, other);
    }
  }

  // ---------- images ----------

  /** The signals of `area` that are 1 when its bytes are `bytes`. */
  ghost function BytesImage(area: Area, bytes: seq<bv8>): Image {
    iset r: SignalRef | r.area == area && r.byte < |bytes| && r.bit <= 7 && BitOf(bytes[r.byte], r.bit)
  }

  /** The signals of one area. */
  ghost function AreaBits(area: Area): Image {
    iset r: SignalRef | r.area == area
  }

  /** The packing loses nothing: the bits of a byte determine the byte. */
  lemma {:induction false} BitsDetermineByte(v: bv8, w: bv8)
    requires forall bit: nat :: bit <= 7 ==> BitOf(v, bit) == BitOf(w, bit)
    ensures v == w
  {
    LowBits(v, w);
    HighBits(v, w);
    assert v == (v & 0x0F) | (v & 0xF0) && w == (w & 0x0F) | (w & 0xF0);
  }

  lemma LowBits(v: bv8, w: bv8)
    requires forall bit: nat :: bit <= 7 ==> BitOf(v, bit) == BitOf(w, bit)
    ensures v & 0x0F == w & 0x0F
  {
    assert BitOf(v, 0) == BitOf(w, 0) && BitOf(v, 1) == BitOf(w, 1);
    assert BitOf(v, 2) == BitOf(w, 2) && BitOf(v, 3) == BitOf(w, 3);
  }

  lemma HighBits(v: bv8, w: bv8)
    requires forall bit: nat :: bit <= 7 ==> BitOf(v, bit) == BitOf(w, bit)
    ensures v & 0xF0 == w & 0xF0
  {
    assert BitOf(v, 4) == BitOf(w, 4) && BitOf(v, 5) == BitOf(w, 5);
    assert BitOf(v, 6) == BitOf(w, 6) && BitOf(v, 7) == BitOf(w, 7);
  }

  // ---------- the three areas as values ----------

  datatype Areas = Areas(input: seq<bv8>, output: seq<bv8>, memory: seq<bv8>) {
    function Of(area: Area): seq<bv8> {
      match area
      case Input => input
      case Output => output
      case Memory => memory
    }

    function With(area: Area, bytes: seq<bv8>): Areas {
      match area
      case Input => this.(input := bytes)
      case Output => this.(output := bytes)
      case Memory => this.(memory := bytes)
    }

    predicate Sized() {
      |input| == INPUT_SIZE && |output| == OUTPUT_SIZE && |memory| == MEMORY_SIZE
    }
  }

  ghost function ImageOf(areas: Areas): Image
    requires areas.Sized()
  {
    iset r: SignalRef | InRange(r) && BitOf(areas.Of(r.area)[r.byte], r.bit)
  }

  /** One masked store writes that signal and no other. */
  lemma MaskedStoreWritesOneSignal(areas: Areas, r: SignalRef, value: bool)
    requires areas.Sized() && InRange(r)
    ensures var bytes := areas.Of(r.area);
            var stored := areas.With(r.area, bytes[r.byte := WithBit(bytes[r.byte], r.bit, value)]);
            stored.Sized() && ImageOf(stored) == Write(ImageOf(areas), r, value)
  {
    var bytes := areas.Of(r.area);
    var stored := areas.With(r.area, bytes[r.byte := WithBit(bytes[r.byte], r.bit, value)]);
    forall q: SignalRef
      ensures q in ImageOf(stored) <==> q in Write(ImageOf(areas), r, value)
    {
      if InRange(q) && q.area == r.area && q.byte == r.byte {
        WithBitSetsOneBit(bytes[r.byte], r.bit, value, q.bit);
      }
    }
  }

  /** Replacing every byte of one area replaces its signals and leaves the rest. */
  lemma ReplacedAreaImage(areas: Areas, area: Area, bytes: seq<bv8>)
    requires areas.Sized() && |bytes| == AreaSize(area)
    ensures areas.With(area, bytes).Sized()
    ensures ImageOf(areas.With(area, bytes)) == ImageOf(areas) - AreaBits(area) + BytesImage(area, bytes)
  {
  }

  /** The packing loses nothing: maps that show the same signals hold the same bytes. */
  lemma ImageDeterminesAreas(a: Areas, b: Areas)
    requires a.Sized() && b.Sized() && ImageOf(a) == ImageOf(b)
    ensures a == b
  {
    forall area ensures a.Of(area) == b.Of(area) {
      forall i | 0 <= i < AreaSize(area) ensures a.Of(area)[i] == b.Of(area)[i] {
        forall bit: nat | bit <= 7 ensures BitOf(a.Of(area)[i], bit) == BitOf(b.Of(area)[i], bit) {
          assert SignalRef(area, i, bit) in ImageOf(a) <==> SignalRef(area, i, bit) in ImageOf(b);
        }
        BitsDetermineByte(a.Of(area)[i], b.Of(area)[i]);
      }
    }
    assert a.Of(Input) == b.Of(Input) && a.Of(Output) == b.Of(Output) && a.Of(Memory) == b.Of(Memory);
  }

  // ---------- bounds ----------

  /** The bounds test, with the wrap-around of the `size_t` addition. */
  predicate PassesBoundsCheck(area: Area, offset: nat, count: nat) {
    (offset + count) % TWO_64 <= AreaSize(area)
  }

  /** The test is exact unless the sum wraps around to a value inside the area. */
  lemma BoundsCheckExactIff(area: Area, offset: nat, count: nat)
    requires offset < TWO_64 && count < TWO_64
    ensures (PassesBoundsCheck(area, offset, count) <==> offset + count <= AreaSize(area))
       <==> !(TWO_64 <= offset + count <= TWO_64 + AreaSize(area))
  {
    if offset + count < TWO_64 {
      assert (offset + count) % TWO_64 == offset + count;
    } else {
      assert (offset + count) % TWO_64 == offset + count - TWO_64;
    }
  }

  // ---------- the map ----------

  /** The element-by-element copy of `data` into an area. */
  method CopyInto(bytes: array<bv8>, offset: nat, data: seq<bv8>)
    requires offset + |data| <= bytes.Length
    modifies bytes
    ensures bytes[..] == old(bytes[..offset]) + data + old(bytes[offset + |data|..])
  {
    for i := 0 to |data|
      invariant bytes[..] == old(bytes[..offset]) + data[..i] + old(bytes[offset + i..])
    {
      bytes[offset + i] := data[i];
    }
  }

  class MemoryMap {
    const input: array<bv8>
    const output: array<bv8>
    const memory: array<bv8>

    predicate Valid() {
      && input.Length == INPUT_SIZE && output.Length == OUTPUT_SIZE && memory.Length == MEMORY_SIZE
      && input != output && input != memory && output != memory
    }

    function Bytes(area: Area): (a: array<bv8>)
      requires Valid()
      ensures a.Length == AreaSize(area)
    {
      match area
      case Input => input
      case Output => output
      case Memory => memory
    }

    ghost function Contents(): (areas: Areas)
      requires Valid()
      reads input, output, memory
      ensures areas.Sized()
    {
      Areas(input[..], output[..], memory[..])
    }

    ghost function Image(): Image
      requires Valid()
      reads input, output, memory
    {
      ImageOf(Contents())
    }

    constructor ()
      ensures Valid() && fresh(input) && fresh(output) && fresh(memory)
      ensures Image() == iset{}
    {
      input := new bv8[INPUT_SIZE](_ => 0);
      output := new bv8[OUTPUT_SIZE](_ => 0);
      memory := new bv8[MEMORY_SIZE](_ => 0);
    }

    method ReadBit(r: SignalRef) returns (value: Result<bool, MemoryError>)
      requires Valid() && r.byte < TWO_64
      ensures value == if r.bit > 7 then Failure(InvalidBit)
                       else if r.byte < AreaSize(r.area) then Success(r in Image())
                       else if r.byte + 1 == TWO_64 then Failure(WildAccess)
                       else Failure(OutOfRange)
      ensures value.Success? ==> value.value == LowBit(Bytes(r.area)[r.byte], r.bit)
    {
      if r.bit > 7 {
        return Failure(InvalidBit);
      }
      var byte := ReadByte(r.area, r.byte);
      if byte.Success? {
        BitIsLowBit(byte.value, r.bit);
      }
      match byte {
        case Failure(e) => value := Failure(e);
        case Success(v) => value := Success((v & Mask(r.bit)) != 0);
      }
    }

    method WriteBit(r: SignalRef, value: bool) returns (ok: Result<(), MemoryError>)
      requires Valid() && r.byte < TWO_64
      modifies input, output, memory
      ensures ok == if r.bit > 7 then Failure(InvalidBit)
                    else if r.byte < AreaSize(r.area) then Success(())
                    else if r.byte + 1 == TWO_64 then Failure(WildAccess)
                    else Failure(OutOfRange)
      ensures ok != Failure(WildAccess) ==>
        Image() == if ok.Success? then Write(old(Image()), r, value) else old(Image())
      ensures ok.Success? ==> StoresBit(old(Contents()).Of(r.area), Contents().Of(r.area), r.byte, r.bit, value)
    {
      if r.bit > 7 {
        return Failure(InvalidBit);
      }
      if !PassesBoundsCheck(r.area, r.byte, 1) {
        return Failure(OutOfRange);
      }
      if r.byte >= AreaSize(r.area) {
        return Failure(WildAccess);
      }
      var bytes := Bytes(r.area);
      ghost var was := Contents();
      MaskedStoreWritesOneSignal(was, r, value);
      WithBitStores(was.Of(r.area), r.byte, r.bit, value);
      bytes[r.byte] := WithBit(bytes[r.byte], r.bit, value);
      assert Contents() == was.With(r.area, bytes[..]);
      ok := Success(());
    }

    method ReadByte(area: Area, offset: uint64) returns (value: Result<bv8, MemoryError>)
      requires Valid()
      ensures value == if offset < AreaSize(area) then Success(Bytes(area)[offset])
                       else if offset + 1 == TWO_64 then Failure(WildAccess)
                       else Failure(OutOfRange)
    {
      if !PassesBoundsCheck(area, offset, 1) {
        return Failure(OutOfRange);
      }
      if offset >= AreaSize(area) {
        return Failure(WildAccess);
      }
      value := Success(Bytes(area)[offset]);
    }

    /** Copies `data` over the bytes that start at `offset`. */
    method WriteBytes(area: Area, offset: uint64, data: seq<bv8>) returns (ok: Result<(), MemoryError>)
      requires Valid() && |data| < TWO_64
      modifies input, output, memory
      ensures ok == if offset + |data| <= AreaSize(area) then Success(())
                    else if TWO_64 <= offset + |data| <= TWO_64 + AreaSize(area) then Failure(WildAccess)
                    else Failure(OutOfRange)
      ensures ok == Failure(OutOfRange) ==> Contents() == old(Contents())
      ensures ok.Success? ==>
        var was := old(Contents()).Of(area);
        Contents() == old(Contents()).With(area, was[..offset] + data + was[offset + |data|..])
    {
      BoundsCheckExactIff(area, offset, |data|);
      if !PassesBoundsCheck(area, offset, |data|) {
        return Failure(OutOfRange);
      }
      if offset + |data| > AreaSize(area) {
        return Failure(WildAccess);
      }
      var bytes := Bytes(area);
      CopyInto(bytes, offset, data);
      ok := Success(());
    }

    method GetAreaSnapshot(area: Area) returns (bytes: seq<bv8>)
      requires Valid()
      ensures bytes == Contents().Of(area)
    {
      bytes := Bytes(area)[..];
    }
  }
}
