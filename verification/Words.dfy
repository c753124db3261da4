/** The widths of the machine's numbers. */
module Words {
  const TWO_64 := 0x1_0000_0000_0000_0000

  type uint64 = n: nat | n < TWO_64

  type Bytes = seq<bv8>
}
