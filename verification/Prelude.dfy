/** Types shared by every module. */
module Prelude {
  datatype Option<+T> = None | Some(value: T)

  /** One octet, as an integer. */
  type byte = x: int | 0 <= x < 256

  /** A device id (HusarnetAddress): its 16 bytes read as one big-endian number, so that `<` on
      ids is the lexicographic order of the byte arrays. */
  type Id = nat

  /** The value of a default-constructed address, 3fff::. */
  const UNSET: Id := 0x3fff_0000_0000_0000_0000_0000_0000_0000

  type Bytes = seq<byte>

  /** fstring<16>: the bytes of an address in network order. */
  type Ip = a: Bytes | |a| == 16 witness seq(16, _ => 0)

  /** 3fff:: as bytes. */
  const UNSET_IP: Ip := [0x3f, 0xff, 0, 0, 0, 0, 0, 0, 0, 0, 0, 0, 0, 0, 0, 0]
}
