/**
 * The relay driver: register reads and writes over the shared bus, the relay
 * bit update with its direction-register guard, and the configuration pass
 * over the fixed bank of chips.
 */
module Driver {
  import opened Wrappers
  import opened Mcp23s17
  import opened Frames
  import opened SpiBus
  import opened Latch

  // Chip addresses of the fixture's two relay matrices, three banks each.
  const ChipAddrU1: bv8 := 0x40
  const ChipAddrU2: bv8 := 0x42
  const ChipAddrU3: bv8 := 0x44
  const ChipAddrU4: bv8 := 0x48
  const ChipAddrU5: bv8 := 0x4A
  const ChipAddrU6: bv8 := 0x4C

  /** IOCON value for every chip: hardware address pins enabled, open-drain interrupt output. */
  const IoConByte: bv8 := 0x0C

  /** The chips on the bus, in the order the configuration pass visits them. */
  const SpiAddressMap: seq<bv8> := [ChipAddrU1, ChipAddrU2, ChipAddrU3, ChipAddrU4, ChipAddrU5, ChipAddrU6]

  datatype ReadResult = ReadResult(bus: BusState, value: bv8, err: Option<Error>)
  datatype WriteResult = WriteResult(bus: BusState, err: Option<Error>)

  /**
   * A register read: one read frame is issued; on success the register's value
   * comes back, on a transport error the error comes back unchanged with 0.
   */
  function ReadRegister(s: BusState, address: bv8, register: bv8): (r: ReadResult)
    ensures r.bus.trace == s.trace + [[address | ReadCmd, register, DummyByte]]
    ensures r.bus.regs == s.regs && r.bus.faults == s.faults
    ensures r.err == FaultAt(s, |s.trace|)
    ensures r.value == if r.err.Some? then 0 else Peek(s.regs, address & !ReadCmd, register)
  {
    var t := Transfer(s, Encode(Read(address, register)));
    if t.err.Some? then ReadResult(t.bus, 0, t.err) else ReadResult(t.bus, t.read[2], None)
  }

  /**
   * A register write: one write frame is issued; on success a chip address
   * with bit 0 clear gets the value stored, and a transport error comes back
   * unchanged with nothing stored.
   */
  function WriteRegister(s: BusState, address: bv8, register: bv8, value: bv8): (r: WriteResult)
    ensures r.bus.trace == s.trace + [[address, register, value]]
    ensures r.bus.faults == s.faults
    ensures r.err == FaultAt(s, |s.trace|)
    ensures r.bus.regs == if r.err.None? && IsWriteAddress(address) then s.regs[(address, register) := value] else s.regs
  {
    var t := Transfer(s, Encode(Write(address, register, value)));
    WriteResult(t.bus, t.err)
  }

  /** The registers and bit that drive one relay output. */
  datatype Half = Half(ioDir: bv8, olat: bv8, bit: BitIndex)

  /**
   * Pins 0-7 live on the A half and pins 8-15 on the B half, at bit pin mod 8;
   * any other pin is rejected.
   */
  function SelectHalf(pin: bv8): (h: Option<Half>)
    ensures h.Some? <==> pin < 16
    ensures h.Some? && pin < 8 ==> h.value.ioDir == IoDirA && h.value.olat == OLatA
    ensures h.Some? && 8 <= pin ==> h.value.ioDir == IoDirB && h.value.olat == OLatB
    ensures h.Some? ==> pin == h.value.bit + (if h.value.olat == OLatB then 8 else 0)
  {
    if pin <= 7 then Some(Half(IoDirA, OLatA, pin))
    else if 8 <= pin < 16 then Some(Half(IoDirB, OLatB, pin % 8))
    else None
  }

  /**
   * The bus after a relay update. Transport errors of the reads are dropped,
   * so a failed read counts as the value 0.
   */
  function SetRelay(s: BusState, address: bv8, pin: bv8, value: bv8): (r: BusState)
    ensures r.faults == s.faults
    ensures |s.trace| <= |r.trace| <= |s.trace| + 4 && r.trace[..|s.trace|] == s.trace
  {
    match SelectHalf(pin)
    case None => s
    case Some(h) =>
      var dir := ReadRegister(s, address, h.ioDir);
      if dir.value != 0 then dir.bus else UpdateLatch(dir.bus, address, h, value)
  }

  /**
   * The read-modify-write of an output latch once the direction check has
   * passed: read the latch, write it back with one bit changed, read it again.
   */
  function UpdateLatch(s: BusState, address: bv8, h: Half, value: bv8): (r: BusState)
    ensures r.faults == s.faults
    ensures |r.trace| == |s.trace| + 3 && r.trace[..|s.trace|] == s.trace
  {
    var prev := ReadRegister(s, address, h.olat);
    var written := WriteRegister(prev.bus, address, h.olat, NewLatch(prev.value, h.bit, value));
    ReadRegister(written.bus, address, h.olat).bus
  }

  /** The first pass: IOCON written on every chip in order. */
  function IoConPass(s: BusState, addrs: seq<bv8>): (r: BusState)
    ensures r.faults == s.faults
    ensures |r.trace| == |s.trace| + |addrs| && r.trace[..|s.trace|] == s.trace
  {
    if addrs == [] then s
    else WriteRegister(IoConPass(s, addrs[..|addrs| - 1]), addrs[|addrs| - 1], IoCon, IoConByte).bus
  }

  /** The second pass: both direction registers of every chip set to all outputs. */
  function IoDirPass(s: BusState, addrs: seq<bv8>): (r: BusState)
    ensures r.faults == s.faults
    ensures |r.trace| == |s.trace| + 2 * |addrs| && r.trace[..|s.trace|] == s.trace
  {
    if addrs == [] then s
    else
      var before := IoDirPass(s, addrs[..|addrs| - 1]);
      var a := addrs[|addrs| - 1];
      WriteRegister(WriteRegister(before, a, IoDirA, 0x00).bus, a, IoDirB, 0x00).bus
  }

  /** The bus after configuring every chip; write errors never stop the passes. */
  function Configure(s: BusState): (r: BusState)
    ensures r.faults == s.faults
    ensures |r.trace| == |s.trace| + 18 && r.trace[..|s.trace|] == s.trace
  {
    IoDirPass(IoConPass(s, SpiAddressMap), SpiAddressMap)
  }

  /** The driver owns the one shared bus connection. */
  class SpiIoDriver {
    const conn: Bus

    constructor (conn: Bus)
      ensures this.conn == conn
    {
      this.conn := conn;
    }

    /** Writes value to a register of the chip at address. */
    method SpiWrite(address: bv8, register: bv8, value: bv8) returns (err: Option<Error>)
      modifies conn
      ensures WriteResult(conn.State(), err) == WriteRegister(old(conn.State()), address, register, value)
    {
      var write: Frame := [address, register, value];
      var read, e := conn.Tx(write);
      if e.Some? {
        return e;
      }
      return None;
    }

    /** Reads a register of the chip at address. */
    method SpiRead(address: bv8, register: bv8) returns (value: bv8, err: Option<Error>)
      modifies conn
      ensures ReadResult(conn.State(), value, err) == ReadRegister(old(conn.State()), address, register)
    {
      var write: Frame := [address | ReadCmd, register, DummyByte];
      var read, e := conn.Tx(write);
      if e.Some? {
        return 0, e;
      }
      return read[2], None;
    }

    /** Drives relay output pin of the chip at address on (value != 0) or off. */
    method SetRelayState(address: bv8, pin: bv8, value: bv8)
      modifies conn
      ensures conn.State() == SetRelay(old(conn.State()), address, pin, value)
    {
      var ioDirReg: bv8;
      var olatReg: bv8;
      var bit: BitIndex;
      if pin <= 7 {
        ioDirReg, olatReg, bit := IoDirA, OLatA, pin;
      } else if 8 <= pin < 16 {
        ioDirReg, olatReg, bit := IoDirB, OLatB, pin % 8;
      } else {
        return;
      }

      var ioDirRegValue, dirErr := SpiRead(address, ioDirReg);
      if ioDirRegValue != 0 {
        return;
      }

      var prevRegValue, prevErr := SpiRead(address, olatReg);
      var newRegValue := NewLatch(prevRegValue, bit, value);
      var writeErr := SpiWrite(address, olatReg, newRegValue);
      var checkErr;
      newRegValue, checkErr := SpiRead(address, olatReg);
    }

    /** Writes IOCON to every chip, then sets both direction registers of every chip to outputs. */
    method ConfigureMCPChips()
      modifies conn
      ensures conn.State() == Configure(old(conn.State()))
    {
      ghost var s0 := conn.State();
      for i := 0 to |SpiAddressMap|
        invariant conn.State() == IoConPass(s0, SpiAddressMap[..i])
      {
        IoConPassPrefix(s0, SpiAddressMap, i);
        var err := SpiWrite(SpiAddressMap[i], IoCon, IoConByte);
      }
      ghost var s1 := conn.State();
      for i := 0 to |SpiAddressMap|
        invariant conn.State() == IoDirPass(s1, SpiAddressMap[..i])
      {
        IoDirPassPrefix(s1, SpiAddressMap, i);
        var errA := SpiWrite(SpiAddressMap[i], IoDirA, 0x00);
        var errB := SpiWrite(SpiAddressMap[i], IoDirB, 0x00);
      }
      assert SpiAddressMap[..|SpiAddressMap|] == SpiAddressMap;
    }
  }

  /** One more chip of the first pass is one more IOCON write. */
  lemma IoConPassPrefix(s: BusState, addrs: seq<bv8>, i: nat)
    requires i < |addrs|
    ensures IoConPass(s, addrs[..i + 1]) == WriteRegister(IoConPass(s, addrs[..i]), addrs[i], IoCon, IoConByte).bus
  {
    assert addrs[..i + 1][..i] == addrs[..i];
  }

  /** One more chip of the second pass is one more pair of direction writes. */
  lemma IoDirPassPrefix(s: BusState, addrs: seq<bv8>, i: nat)
    requires i < |addrs|
    ensures IoDirPass(s, addrs[..i + 1]) ==
            WriteRegister(WriteRegister(IoDirPass(s, addrs[..i]), addrs[i], IoDirA, 0x00).bus, addrs[i], IoDirB, 0x00).bus
  {
    assert addrs[..i + 1][..i] == addrs[..i];
  }
}
