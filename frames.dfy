/**
 * The three-byte SPI frame of the MCP23S17: control byte (chip address with
 * the read/write selector in bit 0), register offset, and a data byte that is
 * the value to store on a write and a filler on a read.
 */
module Frames {
  import opened Mcp23s17

  /** Filler clocked out in the data position of a read request. */
  const DummyByte: bv8 := 0xDB

  type Frame = f: seq<bv8> | |f| == 3 witness [0, 0, 0]

  /** What a request frame asks of the chip it addresses. */
  datatype Command =
    | Write(address: bv8, register: bv8, value: bv8)
    | Read(address: bv8, register: bv8)

  /** A command whose chip address keeps the read/write selector clear. */
  predicate WellAddressed(c: Command)
  {
    IsWriteAddress(c.address)
  }

  /** The request frame the driver sends for a command. */
  function Encode(c: Command): (f: Frame)
    ensures f[0] & !ReadCmd == c.address & !ReadCmd && f[1] == c.register
    ensures WellAddressed(c) ==> (f[0] & ReadCmd == ReadCmd <==> c.Read?)
    ensures c.Read? ==> f[2] == DummyByte
    ensures c.Write? ==> f[2] == c.value
  {
    match c
    case Write(a, r, v) => [a, r, v]
    case Read(a, r) => [a | ReadCmd, r, DummyByte]
  }

  /** How a chip reads a request frame: bit 0 of the control byte selects a read. */
  function Decode(f: Frame): (c: Command)
    ensures WellAddressed(c)
    ensures c.register == f[1]
  {
    if f[0] & ReadCmd == ReadCmd then Read(f[0] & !ReadCmd, f[1])
    else Write(f[0], f[1], f[2])
  }

  /** A chip recovers every well-addressed command from its frame. */
  lemma DecodeEncode(c: Command)
    requires WellAddressed(c)
    ensures Decode(Encode(c)) == c
  {
  }

  /** Re-encoding a decoded frame gives the frame back, provided a read carries the filler byte. */
  lemma EncodeDecode(f: Frame)
    requires !IsWriteAddress(f[0]) ==> f[2] == DummyByte
    ensures Encode(Decode(f)) == f
  {
  }

  /** The frames for chip 0x40 and output latch A. */
  lemma FrameExamples()
    ensures Encode(Read(0x40, OLatA)) == [0x41, 0x14, 0xDB]
    ensures Encode(Write(0x40, OLatA, 0x08)) == [0x40, 0x14, 0x08]
  {
  }
}
