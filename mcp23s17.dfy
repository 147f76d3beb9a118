/**
 * Register map of the MCP23S17 16-bit I/O expander: register offsets for the
 * A and B halves of the port, the bits of the IOCON configuration register,
 * and the read/write selector bit of the SPI control byte.
 */
module Mcp23s17 {

  /** Control byte of a chip whose hardware address pins are all tied low. */
  const DefaultAddress: bv8 := 0x40

  // Register offsets (sequential addressing, IOCON.BANK = 0).
  const IoDirA: bv8 := 0x00    // I/O direction A
  const IoDirB: bv8 := 0x01    // I/O direction B
  const IPolA: bv8 := 0x02     // input polarity A
  const IPolB: bv8 := 0x03     // input polarity B
  const GpIntEnA: bv8 := 0x04  // interrupt-on-change enable A
  const GpIntEnB: bv8 := 0x05  // interrupt-on-change enable B
  const DefValA: bv8 := 0x06   // interrupt default value A
  const DefValB: bv8 := 0x07   // interrupt default value B
  const IntConA: bv8 := 0x08   // interrupt control A
  const IntConB: bv8 := 0x09   // interrupt control B
  const IoCon: bv8 := 0x0A     // I/O configuration (also reachable at 0x0B)
  const GpPuA: bv8 := 0x0C     // pull-ups A
  const GpPuB: bv8 := 0x0D     // pull-ups B
  const IntFA: bv8 := 0x0E     // interrupt flag A
  const IntFB: bv8 := 0x0F     // interrupt flag B
  const IntCapA: bv8 := 0x10   // interrupt capture A
  const IntCapB: bv8 := 0x11   // interrupt capture B
  const GpIoA: bv8 := 0x12     // port A
  const GpIoB: bv8 := 0x13     // port B
  const OLatA: bv8 := 0x14     // output latch A
  const OLatB: bv8 := 0x15     // output latch B

  // IOCON flag encodings: the "on" and "off" value of each configuration bit.
  const BankOff: bv8 := 0x00
  const BankOn: bv8 := 0x80
  const IntMirrorOn: bv8 := 0x40
  const IntMirrorOff: bv8 := 0x00
  const SeqOpOff: bv8 := 0x20
  const SeqOpOn: bv8 := 0x00
  const DisSlwOn: bv8 := 0x10
  const DisSlwOff: bv8 := 0x00
  const HaEnOn: bv8 := 0x08
  const HaEnOff: bv8 := 0x00
  const ODrOn: bv8 := 0x04
  const ODrOff: bv8 := 0x00
  const IntPolHigh: bv8 := 0x02
  const IntPolLow: bv8 := 0x00

  // Read/write selector, OR-ed into bit 0 of the control byte.
  const WriteCmd: bv8 := 0
  const ReadCmd: bv8 := 1

  // Nibble selectors (declared, used by nothing).
  const LowerNibble: bv8 := 0
  const UpperNibble: bv8 := 1

  /** Every named register offset, in declaration order. */
  const Registers: seq<bv8> :=
    [IoDirA, IoDirB, IPolA, IPolB, GpIntEnA, GpIntEnB, DefValA, DefValB,
     IntConA, IntConB, IoCon, GpPuA, GpPuB, IntFA, IntFB, IntCapA, IntCapB,
     GpIoA, GpIoB, OLatA, OLatB]

  /** The per-half registers as (A, B) pairs. */
  const PortPairs: seq<(bv8, bv8)> :=
    [(IoDirA, IoDirB), (IPolA, IPolB), (GpIntEnA, GpIntEnB), (DefValA, DefValB),
     (IntConA, IntConB), (GpPuA, GpPuB), (IntFA, IntFB), (IntCapA, IntCapB),
     (GpIoA, GpIoB), (OLatA, OLatB)]

  /** The nonzero setting of each IOCON flag, from bit 7 down to bit 1. */
  const FlagBits: seq<bv8> := [BankOn, IntMirrorOn, SeqOpOff, DisSlwOn, HaEnOn, ODrOn, IntPolHigh]

  /** A chip address with the read/write selector clear, as every chip address the driver uses. */
  predicate IsWriteAddress(a: bv8)
  {
    a & ReadCmd == 0
  }

  predicate SingleBit(b: bv8)
  {
    b != 0 && b & (b - 1) == 0
  }

  /** The 21 offsets are pairwise distinct. */
  lemma RegistersDistinct()
    ensures |Registers| == 21
    ensures forall i, j :: 0 <= i < j < |Registers| ==> Registers[i] != Registers[j]
  {
  }

  /** The offsets fill 0x00..0x15 except 0x0B, which the chip aliases to IOCON. */
  lemma RegistersCoverMap()
    ensures forall i :: 0 <= i < |Registers| ==> Registers[i] <= OLatB && Registers[i] != IoCon + 1
    ensures forall b: bv8 :: b <= OLatB && b != IoCon + 1 ==> b in Registers
  {
    forall b: bv8 | b <= OLatB && b != IoCon + 1
      ensures b in Registers
    {
      if b <= IoCon {
        assert Registers[b as int] == b;
      } else {
        assert Registers[b as int - 1] == b;
      }
    }
  }

  /** Each B-half register sits directly after its A-half counterpart, at an even offset. */
  lemma PortPairsAdjacent()
    ensures |PortPairs| == 10
    ensures forall i :: 0 <= i < |PortPairs| ==> PortPairs[i].1 == PortPairs[i].0 + 1 && PortPairs[i].0 & 1 == 0
    ensures IoDirB == IoDirA + 1 && OLatB == OLatA + 1
  {
  }

  /** Each enabled IOCON setting is a single bit, and no two share a bit. */
  lemma FlagsAreDistinctBits()
    ensures forall i :: 0 <= i < |FlagBits| ==> SingleBit(FlagBits[i])
    ensures forall i, j :: 0 <= i < j < |FlagBits| ==> FlagBits[i] & FlagBits[j] == 0
  {
  }

  /** Every flag is off at 0, except sequential operation, whose "off" setting is bit 5. */
  lemma DisabledSettings()
    ensures BankOff == IntMirrorOff == DisSlwOff == HaEnOff == ODrOff == IntPolLow == 0
    ensures SeqOpOn == 0 && SeqOpOff == 0x20 && SingleBit(SeqOpOff)
  {
  }

  /**
   * The write selector is 0 and the read selector is bit 0; setting it on an
   * address whose bit 0 is clear changes that bit alone.
   */
  lemma CommandBits(a: bv8)
    requires IsWriteAddress(a)
    ensures WriteCmd == 0 && ReadCmd == 1 && SingleBit(ReadCmd)
    ensures a | ReadCmd == a + 1 && (a | ReadCmd) & !ReadCmd == a
  {
  }

  /** The default address is a write address: its read/write bit is clear. */
  lemma DefaultAddressIsWriteAddress()
    ensures IsWriteAddress(DefaultAddress) && DefaultAddress | ReadCmd == 0x41
  {
  }
}
