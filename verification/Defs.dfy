/** Constants, basic types and option types shared by every part of the model. */
module Defs {

  type byte = x: int | 0 <= x < 256

  /** A content name: the bytes of a chunk name, or of one of its prefixes. */
  type Name = seq<byte>

  /** The CRC of a name. Nothing but totality is ever assumed of it, so every
      result below holds whatever the collisions are. */
  type Hash = Name -> nat

  /** A packet buffer, identified by its address. */
  type Mbuf = nat

  /** The separator '/' of name components. */
  const SLASH: byte := 47

  const MAX_NAME_LEN := 33
  const MAX_NAME_COMPONENTS := 16
  const APP_MAX_ETH_PORTS := 10
  const BUCKET_SIZE := 7
  const MAX_PKT_BURST := 32
  const PREFETCH_OFFSET := 3

  datatype Option<+T> = None | Some(value: T)

  /** A slot of a bucket, in any of the three hash tables. */
  datatype Slot = Slot(busy: bool, crc: nat, index: nat)

  const FREE_SLOT := Slot(false, 0, 0)
}
