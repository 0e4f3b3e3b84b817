/** The single-bit flags of a source; flset and flclr are set union and difference. */
module Flags {
  datatype Flag = RD | WR | ENABLED | REPEAT | WHENCE_ABS | PERSIST
}
