/** The 128-bit Platform SCP03 static keys. */
module Keys {
  import opened Prelude

  type Block = s: seq<Byte> | |s| == 16 witness [0, 0, 0, 0, 0, 0, 0, 0, 0, 0, 0, 0, 0, 0, 0, 0]

  datatype KeySet = KeySet(enc: Block, mac: Block, dek: Block)
}
