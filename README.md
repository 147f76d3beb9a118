# Relay driver for MCP23S17 I/O expanders

This project models, in Dafny, the core of a small Raspberry Pi relay-fixture
driver. The fixture has six MCP23S17 16-bit I/O expanders on one SPI bus,
at chip addresses 0x40, 0x42, 0x44, 0x48, 0x4A and 0x4C. Each expander
drives 16 relays through its two 8-bit output latches, OLATA and OLATB.
The model covers:

- the chip's register map and configuration constants (`Mcp23s17`);
- the three-byte SPI request frame (`Frames`). The first byte is the chip
  address with the read/write selector in bit 0. The second is the register.
  The third is the value on a write and the filler 0xDB on a read;
- the bit arithmetic of a relay update (`Latch`);
- the driver itself (`Driver`). `SpiIoDriver` owns the shared connection and
  offers four operations:
  - `SpiWrite` and `SpiRead`, one register access each;
  - `ConfigureMCPChips`, which writes IOCON = 0x0C on every chip and then
    sets both direction registers of every chip to outputs;
  - `SetRelayState`, which checks that the pin's direction register reads 0
    (all outputs), then reads, modifies and writes the pin's output latch,
    and finally reads the latch back.

The SPI connection belongs to an external library, so it is modelled as a
`Bus` object (`SpiBus`) with three parts:

- a store of chip registers keyed by (chip address, register);
- the trace of every frame issued so far;
- a fault schedule that says which transfers, numbered from 0, fail with a
  transport error.

Every transfer is appended to the trace, whether or not it fails. A failed
transfer changes no register. A successful write stores its value only when
bit 0 of the chip address is clear. A successful read returns the addressed
register, and a register that was never stored reads as 0.

Every method of `Bus` and `SpiIoDriver` is proved to leave the bus in the
state given by a pure function: `Transfer`, `ReadRegister`, `WriteRegister`,
`SetRelay` or `Configure`. The lemmas in `RelayProperties` and
`ConfigureProperties` state what those functions guarantee.

The driver's own behaviour on errors is reproduced as written:

- `setRelayState` discards the errors of its reads, so a failed read counts
  as the value 0. A failed direction read therefore lets the update through.
  A failed latch read makes the written latch byte contain only the
  requested bit (`FailedLatchReadClearsOtherOutputs`).
- `configureMCPChips` ignores write errors and never stops early.

## Model

| member | source | states |
|---|---|---|
| Mcp23s17.RegistersDistinct | mcp23s17/mcp23s17.go:7-29 | the 21 register offsets are pairwise distinct |
| Mcp23s17.RegistersCoverMap | mcp23s17/mcp23s17.go:7-29 | the offsets are exactly 0x00..0x15 without 0x0B, the IOCON alias |
| Mcp23s17.PortPairsAdjacent | mcp23s17/mcp23s17.go:7-29 | each B-half register directly follows its A-half register, which has an even offset |
| Mcp23s17.FlagsAreDistinctBits | mcp23s17/mcp23s17.go:31-47 | each enabled IOCON setting is a single bit, and no two settings share a bit |
| Mcp23s17.DisabledSettings | mcp23s17/mcp23s17.go:31-47 | every IOCON flag is off at 0, except sequential operation, which is disabled by bit 5 |
| Mcp23s17.CommandBits | mcp23s17/mcp23s17.go:49-53 | the write selector is 0 and the read selector is bit 0; OR-ing it into an even address adds 1, and masking it out restores the address |
| Mcp23s17.DefaultAddressIsWriteAddress | mcp23s17/mcp23s17.go:4 | the default address 0x40 has the read bit clear, and its read control byte is 0x41 |
| Frames.Encode | main.go:169-180 | a frame keeps the command's address outside bit 0 and its register; for an even address bit 0 is set exactly for a read, a read carries the 0xDB filler, and a write carries its value |
| Frames.Decode | mcp23s17/mcp23s17.go:49-53 | a decoded command has its read bit clear and names the frame's register |
| Frames.DecodeEncode | main.go:168-188 | a chip recovers every command with an even address from the frame the driver sends |
| Frames.EncodeDecode | main.go:180 | re-encoding a decoded frame gives it back whenever a read frame carries the 0xDB filler |
| Frames.FrameExamples | main.go:169-180 | the read and write frames for chip 0x40, OLATA are [0x41, 0x14, 0xDB] and [0x40, 0x14, 0x08] |
| SpiBus.Transfer | main.go:171-172 | one transfer appends its frame to the trace and fails exactly as the schedule says; on success a read returns the register in reply byte 2 and a write stores its value; a failure stores nothing |
| SpiBus.Bus.Tx | main.go:171 | the connection's transfer leaves the bus exactly as Transfer says |
| Latch.SetMask | main.go:144 | the set mask has bit pin set and no other bit |
| Latch.ClearMask | main.go:145 | the clear mask is the complement of the set mask: the two share no bit and together cover all eight |
| Latch.NewLatch | main.go:152-157 | the new latch byte has the pin's bit on exactly when value is nonzero, and every other bit equals the previous byte's |
| Latch.NewLatchLastWins | main.go:152-157 | two updates of the same bit equal the last one alone, so an update is idempotent |
| Latch.OnThenOffRestores | main.go:152-157 | switching an output that was off on and then off again restores the byte |
| Latch.LatchExamples | main.go:152-157 | worked bytes: bit 3 on from 0x00 gives 0x08 and back off gives 0x00; bit 5 off from 0xA0 gives 0x80 |
| Driver.ReadRegister | main.go:179-188 | a read issues the frame [address with bit 0 set, register, 0xDB] and changes no register; on a transport error it returns that error and 0, otherwise the register's value |
| Driver.WriteRegister | main.go:168-176 | a write issues the frame [address, register, value] and returns the scheduled error; the register is stored exactly when there is no error and the address is even |
| Driver.SelectHalf | main.go:121-133 | pins 0-7 select IODIRA/OLATA and pins 8-15 select IODIRB/OLATB at bit pin mod 8; any other pin is rejected |
| Driver.SetRelay | main.go:117-165 | a relay update never alters the fault schedule, keeps the old trace as a prefix, and issues at most four frames |
| Driver.UpdateLatch | main.go:147-163 | the latch update issues exactly three frames after the old trace |
| Driver.IoConPass | main.go:105-107 | the first configuration loop issues one frame per chip after the old trace and leaves the fault schedule alone; IoConPassTrace and IoConPassStore state which frames and stores |
| Driver.IoDirPass | main.go:110-113 | the second configuration loop issues two frames per chip after the old trace and leaves the fault schedule alone; IoDirPassTrace and IoDirPassStore state which frames and stores |
| Driver.Configure | main.go:103-114 | configuration issues 18 frames after the old trace, whatever fails, and leaves the fault schedule alone; ConfigureOrder and ConfigureStore state which frames and stores |
| Driver.SpiIoDriver.SpiWrite | main.go:168-176 | the method returns WriteRegister's error and leaves the bus in WriteRegister's state |
| Driver.SpiIoDriver.SpiRead | main.go:179-188 | the method returns ReadRegister's value and error and leaves the bus in ReadRegister's state |
| Driver.SpiIoDriver.SetRelayState | main.go:117-165 | the method leaves the bus in SetRelay's state |
| Driver.SpiIoDriver.ConfigureMCPChips | main.go:103-114 | the method leaves the bus in Configure's state |
| Driver.IoConPassPrefix | main.go:105-107 | one more chip of the first configuration loop is one more IOCON write |
| Driver.IoDirPassPrefix | main.go:110-113 | one more chip of the second configuration loop is one more IODIRA write followed by one IODIRB write |
| RelayProperties.InvalidPinIsNoOp | main.go:130-133 | a pin of 16 or more issues no frame and changes nothing |
| RelayProperties.DirectionMismatchStops | main.go:135-140 | when the direction register reads nonzero, only the direction read is issued and no register changes |
| RelayProperties.SuccessPath | main.go:117-165 | with no transport errors and the direction register at 0, exactly four frames are issued (direction read, latch read, latch write, latch read back) and only the latch changes, to NewLatch of its old value |
| RelayProperties.UpdateLatchNoFaults | main.go:147-163 | with no transport errors, the latch update issues its three frames and stores NewLatch of the old latch value |
| RelayProperties.RelayDrivesOnlyItsBit | main.go:142-162 | on the success path the pin's latch bit takes the requested state and every other bit of that latch is kept |
| RelayProperties.UpdateLatchFrames | main.go:147-163 | the latch update's three frames decode as a latch read, a latch write and a latch read |
| RelayProperties.LatchWrittenOnlyAfterDirectionCheck | main.go:135-162 | a relay update writes some frame iff the pin is valid and the direction read either failed or returned 0; every frame it writes goes to the pin's output latch |
| RelayProperties.WritesAfterPassedCheck | main.go:141-162 | once the direction read yields 0, the update writes, and writes only to the latch |
| RelayProperties.WritesOnlyAtLatch | main.go:148-163 | a trace of a direction read, a latch read, a latch write and a latch read contains a write, and every write in it targets the latch |
| RelayProperties.NoWritesAfterFailedCheck | main.go:137-140 | once the direction read yields nonzero, the only frame issued is that read, so nothing is written |
| RelayProperties.FailedLatchReadClearsOtherOutputs | main.go:136-157 | whenever the direction check lets the update through (the direction read fails or reads 0), the latch read fails and the write succeeds, the latch is left holding only the requested bit: 0, or the pin's set mask |
| RelayProperties.DirectionReadsZero | main.go:136-137 | a successful read of a direction register that holds 0 yields 0 and issues one frame |
| RelayProperties.UpdateLatchAfterFailedRead | main.go:148-162 | the latch update starting from a failed read writes NewLatch of 0 |
| RelayProperties.SetRelayStoresOnlyLatch | main.go:117-165 | whatever the transfers return, a relay update leaves every register other than the pin's output latch on the addressed chip as it was |
| RelayProperties.FailedWriteStoresNothing | main.go:162 | when the latch write fails, the relay update changes no register |
| RelayProperties.FailedDirectionReadProceeds | main.go:136-162 | a failed direction read counts as 0, so the update goes ahead: with the other three transfers succeeding, four frames are issued and the latch takes NewLatch of its old value, nothing else changing |
| RelayProperties.OddAddressStoresNothing | main.go:162 | a relay update to an address with bit 0 set changes no register, because its write frame decodes as a read |
| RelayProperties.SetRelayIdempotent | main.go:117-165 | with no transport errors, repeating a relay update changes no register |
| RelayProperties.IdempotentWhenOutput | main.go:141-162 | the repeat of a successful update changes no register |
| RelayProperties.FirstUpdateFacts | main.go:141-162 | after a successful update the direction register still reads 0, and the latch is stored and already holds the requested bit |
| RelayProperties.RepeatStoresNothingNew | main.go:141-162 | an update whose new latch byte equals the stored byte leaves the registers unchanged |
| RelayProperties.IdempotentWhenNotOutput | main.go:135-140 | when the direction register is nonzero, the repeated update stops at its direction check too |
| ConfigureProperties.ChipAddressesAreWriteAddresses | main.go:17-36 | the six chip addresses are distinct and all have the read bit clear |
| ConfigureProperties.IoConByteIsFlags | main.go:25 | the IOCON byte 0x0C is exactly hardware addressing (HAEN) plus open-drain interrupt output (ODR); every other IOCON feature keeps its off or default setting |
| ConfigureProperties.IoConPassTrace | main.go:105-107 | the first configuration loop issues exactly one IOCON write per chip, in order, and leaves the fault schedule alone |
| ConfigureProperties.IoDirPassTrace | main.go:110-113 | the second configuration loop issues an IODIRA write and then an IODIRB write per chip, in order |
| ConfigureProperties.IoDirFramesSnoc | main.go:110-113 | one more chip adds exactly its two direction frames to the end of the frame list |
| ConfigureProperties.ConfigureTrace | main.go:103-114 | configuration issues the IOCON frames, then the direction frames |
| ConfigureProperties.ConfigureOrder | main.go:103-114 | configuration issues exactly 18 frames: six IOCON writes in chip order, then IODIRA and IODIRB writes per chip, with every IOCON write before every other write |
| ConfigureProperties.ConfigFramesOrder | main.go:103-114 | ConfigureOrder's claims about the frame list itself |
| ConfigureProperties.FramesOrder | main.go:103-114 | for any list of n chip addresses: the IOCON writes come first in chip order, then each chip's IODIRA and IODIRB writes, and every IOCON frame precedes every other frame |
| ConfigureProperties.IoConPassStore | main.go:105-107 | with no transport errors, the first loop sets IOCON to 0x0C on each listed chip and changes nothing else |
| ConfigureProperties.IoConStepStore | main.go:106 | one IOCON write stores 0x0C in that chip's IOCON and nothing else |
| ConfigureProperties.IoDirPassStore | main.go:110-113 | with no transport errors, the second loop zeroes both direction registers of each listed chip and changes nothing else |
| ConfigureProperties.IoDirStepStore | main.go:111-112 | one pair of direction writes zeroes that chip's two direction registers and nothing else |
| ConfigureProperties.ConfigureStore | main.go:103-114 | with no transport errors, every bank chip ends with IOCON = 0x0C and IODIRA = IODIRB = 0, and every other register is unchanged |

## Left out

- Host and SPI bring-up in `main` (periph initialisation, opening the port at 100 kHz in mode 1, closing it) is not modelled. It is I/O against the operating system.
- The demonstration loops in `main` that latch and then release the 16 relays of chip U6 are not modelled separately. Each iteration is one `SetRelayState` call.
- `resetMCPChips` is not modelled. It pulses the expanders' reset line, which restores every chip's power-on register values. That restores exactly the register store that `Bus` holds. The lemmas instead start from an arbitrary store.
- The `time.Sleep` calls after each transfer have no effect in the model.
- The console output (`fmt.Println` and `fmt.Printf`) has no effect in the model.
- The SPI connection's `Tx` is a foreign call. It is modelled by `SpiBus.Transfer`: an idealised register file plus a fault schedule. Full-duplex reply bytes other than byte 2 of a read, and the chip's IOCON.BANK=1 and sequential-address modes, are not modelled. Hardware-address enable is not modelled either, as the `ConfigureProperties.ConfigureStore` line below explains.
- The interrupt, polarity, pull-up and GPIO registers appear only as constants. The driver never accesses them.
- `LowerNibble` and `UpperNibble` appear only as constants. No code uses them.
- `SpiBus.Peek`: a register that was never stored reads as 0, which stands in for the chip's power-on value. The real chip resets OLAT and most other registers to 0, but resets IODIRA and IODIRB to 0xFF.
- `RelayProperties.SetRelayIdempotent`: proved only when no transport error occurs. With failures the driver's error-dropping can store a different byte on the second call (see `FailedLatchReadClearsOtherOutputs`).
- `ConfigureProperties.ConfigureStore`: the register file treats every control byte as its own chip from the start. On the MCP23S17 the hardware address pins are decoded only once IOCON.HAEN is set, and HAEN is bit 3 of the 0x0C being written. Until then every chip answers the control byte 0x40, so the IOCON-first order of the two passes is what makes the direction writes reach chips U2-U6. The model gives the same final store under any order of the writes. Only `ConfigureOrder`, through the trace, states the order.
- `ConfigureProperties.ConfigureStore`: proved only when no transport error occurs. With failures, each failed write leaves its register unchanged (`WriteRegister`).
- `Driver.SetRelay`: its own contract bounds the trace only. The `RelayProperties` lemmas state what it stores. Under any fault schedule, nothing outside the pin's latch changes, and a failed latch write stores nothing. The latch byte itself is given in these cases: no faults; a successful nonzero direction read; a failed direction read with the rest succeeding; a failed latch read with the write succeeding, whether the direction read failed or read 0; a failed latch write; an invalid pin; an odd address. For other combinations of failures, the model does not state the latch byte.
- `Driver.SpiIoDriver.SetRelayState`: Go's `pin = pin % 8` reassignment is kept as a separate bit index, so the caller's pin value is not overwritten. Go passes the pin by value, so this is not observable.
