/** The decoded RCP-over-ACF message every other component exchanges. */
module Acf {
  import opened Bytes
  import opened Nibbles

  type StreamId = s: seq<Byte> | |s| == 8 witness [0, 0, 0, 0, 0, 0, 0, 0]

  /** ACF_ABB carries no timestamp slot, ACF_GBB does. Any other kind is
      representable in a Message but has no encoding. */
  const KIND_SHORT: Byte := 1
  const KIND_LONG: Byte := 2

  const FLAG_READ: Byte := 128
  const FLAG_WRITE: Byte := 64
  const FLAG_RESPONSE: Byte := 32
  const FLAG_ERROR: Byte := 16
  const FLAG_MORE_SEGMENTS: Byte := 8

  datatype Message = Message(
    kind: Byte,
    pad: Byte,
    busId: Word16,
    txn: Word16,
    evt: Byte,
    hs: bool,
    cs: bool,
    mtv: bool,
    control: Byte,
    readSize: Word16,
    timestamp: Word64,
    body: seq<Byte>)

  /** The flags: read, write, response and error in the high half, more-segments
      at the top of the low half, nothing below it. */
  function Flags(control: Byte): Nibble {
    NibbleOf(High(control))
  }

  predicate IsWrite(control: Byte) {
    Flags(control).b2
  }

  predicate IsResponse(control: Byte) {
    Flags(control).b1
  }

  predicate IsError(control: Byte) {
    Flags(control).b0
  }

  predicate MoreSegments(control: Byte) {
    Low(control) >= 8
  }

  /** `control` with the more-segments bit set, respectively cleared. */
  function WithMore(control: Byte): (c: Byte)
    ensures MoreSegments(c) && WithoutMore(c) == WithoutMore(control)
  {
    if MoreSegments(control) then control else control + FLAG_MORE_SEGMENTS
  }

  function WithoutMore(control: Byte): (c: Byte)
    ensures !MoreSegments(c)
    ensures !MoreSegments(control) ==> c == control
  {
    if MoreSegments(control) then control - FLAG_MORE_SEGMENTS else control
  }
}
