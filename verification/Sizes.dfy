/** Sizes that several parts share: the machine's size_t, and the fields of utils/ops.h. */
module Sizes {
  import opened CStrings

  const SIZE_T_RANGE: nat := 0x1_0000_0000_0000_0000
  const MESSAGE_LEN: nat := 1024
  const BOX_LEN: nat := 32

  /** A name that fits, with its terminator, in BOX_LEN bytes. */
  type BoxName = s: CString | |s| < BOX_LEN witness []
}
