/** Machine words and the small result types shared by the other modules. */
module Words {
  const TWO_32: nat := 0x1_0000_0000
  const TWO_64: nat := 0x1_0000_0000_0000_0000

  type U32 = x: int | 0 <= x < TWO_32
  type U64 = x: int | 0 <= x < TWO_64

  /** (uint32_t)-1, which asks for no change of an id. */
  const NOID: U32 := 0xFFFF_FFFF

  const EPERM: int := 1
  const EFAULT: int := 14
  const EINVAL: int := 22

  /** The size of every path buffer. */
  const PATH_LEN: nat := 4096

  datatype Option<+T> = None | Some(value: T)
}
