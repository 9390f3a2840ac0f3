// What several modules share.

module Common {

  datatype Option<+T> = None | Some(value: T)

  type Uint64 = x: int | 0 <= x < 0x1_0000_0000_0000_0000

  const MAX_UINT64: Uint64 := 0xFFFF_FFFF_FFFF_FFFF

  type Byte = bv8

  type Word = bv64
}
