/**
 * What a relay update does to the bus: which frames it issues, in which
 * order, what it stores, and what it does when a read fails.
 */
module RelayProperties {
  import opened Wrappers
  import opened Mcp23s17
  import opened Frames
  import opened SpiBus
  import opened Latch
  import opened Driver

  /** A pin outside 0-15 is rejected before any frame is issued. */
  lemma InvalidPinIsNoOp(s: BusState, address: bv8, pin: bv8, value: bv8)
    requires 16 <= pin
    ensures SetRelay(s, address, pin, value) == s
  {
  }

  /**
   * When the direction register reads back nonzero, the update stops after
   * that one read frame and stores nothing.
   */
  lemma DirectionMismatchStops(s: BusState, address: bv8, pin: bv8, value: bv8)
    requires pin < 16 && |s.trace| !in s.faults
    requires Peek(s.regs, address & !ReadCmd, if pin < 8 then IoDirA else IoDirB) != 0
    ensures var r := SetRelay(s, address, pin, value);
            r.trace == s.trace + [[address | ReadCmd, if pin < 8 then IoDirA else IoDirB, DummyByte]] &&
            r.regs == s.regs
  {
  }

  /**
   * Without transport errors, the read-modify-write issues read latch, write
   * latch, read latch, and stores the new latch byte and nothing else.
   */
  lemma UpdateLatchNoFaults(s: BusState, address: bv8, h: Half, value: bv8)
    requires IsWriteAddress(address) && NoFaults(s, 3)
    ensures var next := NewLatch(Peek(s.regs, address, h.olat), h.bit, value);
            var r := UpdateLatch(s, address, h, value);
            r.trace == s.trace + [Encode(Read(address, h.olat)), Encode(Write(address, h.olat, next)),
                                  Encode(Read(address, h.olat))] &&
            r.regs == s.regs[(address, h.olat) := next]
  {
    assert address & !ReadCmd == address;
    var prev := ReadRegister(s, address, h.olat);
    assert prev.err.None? && prev.value == Peek(s.regs, address, h.olat);
    var next := NewLatch(prev.value, h.bit, value);
    var written := WriteRegister(prev.bus, address, h.olat, next);
    assert written.err.None? && written.bus.regs == s.regs[(address, h.olat) := next];
    var check := ReadRegister(written.bus, address, h.olat);
    var f1, f2, f3 := Encode(Read(address, h.olat)), Encode(Write(address, h.olat, next)), Encode(Read(address, h.olat));
    assert written.bus.trace == s.trace + [f1] + [f2];
    assert check.bus.trace == s.trace + [f1] + [f2] + [f3];
    assert s.trace + [f1] + [f2] + [f3] == s.trace + [f1, f2, f3];
  }

  /**
   * Without transport errors, an update of a chip whose direction register
   * reads 0 issues exactly: read direction, read latch, write latch, read
   * latch; and stores the new latch byte and nothing else.
   */
  lemma SuccessPath(s: BusState, address: bv8, pin: bv8, value: bv8)
    requires pin < 16 && IsWriteAddress(address) && NoFaults(s, 4)
    requires Peek(s.regs, address, if pin < 8 then IoDirA else IoDirB) == 0
    ensures var dir := if pin < 8 then IoDirA else IoDirB;
            var olat := if pin < 8 then OLatA else OLatB;
            var next := NewLatch(Peek(s.regs, address, olat), pin % 8, value);
            var r := SetRelay(s, address, pin, value);
            r.trace == s.trace + [Encode(Read(address, dir)), Encode(Read(address, olat)),
                                  Encode(Write(address, olat, next)), Encode(Read(address, olat))] &&
            r.regs == s.regs[(address, olat) := next]
  {
    var h := SelectHalf(pin).value;
    assert h == Half(if pin < 8 then IoDirA else IoDirB, if pin < 8 then OLatA else OLatB, pin % 8);
    SuccessPathOf(s, address, pin, h, value);
  }

  /** SuccessPath for the half SelectHalf chose. */
  lemma SuccessPathOf(s: BusState, address: bv8, pin: bv8, h: Half, value: bv8)
    requires SelectHalf(pin) == Some(h)
    requires IsWriteAddress(address) && NoFaults(s, 4) && Peek(s.regs, address, h.ioDir) == 0
    ensures var next := NewLatch(Peek(s.regs, address, h.olat), h.bit, value);
            var r := SetRelay(s, address, pin, value);
            r.trace == s.trace + [Encode(Read(address, h.ioDir)), Encode(Read(address, h.olat)),
                                  Encode(Write(address, h.olat, next)), Encode(Read(address, h.olat))] &&
            r.regs == s.regs[(address, h.olat) := next]
  {
    var dir := ReadRegister(s, address, h.ioDir);
    assert dir.value == 0 by {
      assert address & !ReadCmd == address;
    }
    assert NoFaults(dir.bus, 3);
    UpdateLatchNoFaults(dir.bus, address, h, value);
    var f0 := Encode(Read(address, h.ioDir));
    var rest := [Encode(Read(address, h.olat)), Encode(Write(address, h.olat, NewLatch(Peek(s.regs, address, h.olat), h.bit, value))),
                 Encode(Read(address, h.olat))];
    assert SetRelay(s, address, pin, value).trace == s.trace + [f0] + rest;
    assert s.trace + [f0] + rest == s.trace + [f0, rest[0], rest[1], rest[2]];
  }

  /**
   * On the success path the relay's own bit takes the requested state and
   * every other output of the same half keeps its state.
   */
  lemma RelayDrivesOnlyItsBit(s: BusState, address: bv8, pin: bv8, value: bv8, i: BitIndex)
    requires pin < 16 && IsWriteAddress(address) && NoFaults(s, 4)
    requires Peek(s.regs, address, if pin < 8 then IoDirA else IoDirB) == 0
    ensures var olat := if pin < 8 then OLatA else OLatB;
            var after := Peek(SetRelay(s, address, pin, value).regs, address, olat);
            Bit(after, i) <==> if i == pin % 8 then value != 0 else Bit(Peek(s.regs, address, olat), i)
  {
    SuccessPath(s, address, pin, value);
  }

  /** Some frame issued from position from onward is a write. */
  predicate WritesBetween(trace: seq<Frame>, from: nat)
  {
    exists i :: from <= i < |trace| && Decode(trace[i]).Write?
  }

  /**
   * Whatever the transfers return, the read-modify-write issues a latch read,
   * a latch write and a latch read, in that order.
   */
  lemma UpdateLatchFrames(s: BusState, address: bv8, h: Half, value: bv8)
    requires IsWriteAddress(address)
    ensures var r := UpdateLatch(s, address, h, value);
            |r.trace| == |s.trace| + 3 && r.trace[..|s.trace|] == s.trace &&
            Decode(r.trace[|s.trace|]) == Read(address, h.olat) &&
            Decode(r.trace[|s.trace| + 1]).Write? && Decode(r.trace[|s.trace| + 1]).register == h.olat &&
            Decode(r.trace[|s.trace| + 2]) == Read(address, h.olat)
  {
    var prev := ReadRegister(s, address, h.olat);
    var written := WriteRegister(prev.bus, address, h.olat, NewLatch(prev.value, h.bit, value));
    var r := ReadRegister(written.bus, address, h.olat);
    assert r.bus.trace == s.trace + [Encode(Read(address, h.olat))]
                                  + [Encode(Write(address, h.olat, NewLatch(prev.value, h.bit, value)))]
                                  + [Encode(Read(address, h.olat))];
    DecodeEncode(Read(address, h.olat));
    DecodeEncode(Write(address, h.olat, NewLatch(prev.value, h.bit, value)));
  }

  /**
   * A write frame is issued exactly when the pin is valid and the direction
   * read came back 0, either because the register holds 0 or because the read
   * failed and its error was dropped; any write goes to the output latch.
   */
  lemma LatchWrittenOnlyAfterDirectionCheck(s: BusState, address: bv8, pin: bv8, value: bv8)
    requires IsWriteAddress(address)
    ensures var r := SetRelay(s, address, pin, value);
            WritesBetween(r.trace, |s.trace|) <==>
            pin < 16 && (|s.trace| in s.faults || Peek(s.regs, address, if pin < 8 then IoDirA else IoDirB) == 0)
    ensures var r := SetRelay(s, address, pin, value);
            forall i :: |s.trace| <= i < |r.trace| && Decode(r.trace[i]).Write? ==>
              Decode(r.trace[i]).register == (if pin < 8 then OLatA else OLatB)
  {
    if pin < 16 {
      var h := SelectHalf(pin).value;
      assert h.ioDir == (if pin < 8 then IoDirA else IoDirB) && h.olat == (if pin < 8 then OLatA else OLatB);
      LatchWrittenOf(s, address, pin, h, value);
    }
  }

  /** LatchWrittenOnlyAfterDirectionCheck for the half SelectHalf chose. */
  lemma LatchWrittenOf(s: BusState, address: bv8, pin: bv8, h: Half, value: bv8)
    requires SelectHalf(pin) == Some(h) && IsWriteAddress(address)
    ensures var r := SetRelay(s, address, pin, value);
            WritesBetween(r.trace, |s.trace|) <==> (|s.trace| in s.faults || Peek(s.regs, address, h.ioDir) == 0)
    ensures var r := SetRelay(s, address, pin, value);
            forall i :: |s.trace| <= i < |r.trace| && Decode(r.trace[i]).Write? ==> Decode(r.trace[i]).register == h.olat
  {
    var dir := ReadRegister(s, address, h.ioDir);
    assert dir.value == 0 <==> |s.trace| in s.faults || Peek(s.regs, address, h.ioDir) == 0 by {
      assert address & !ReadCmd == address;
    }
    if dir.value == 0 {
      WritesAfterPassedCheck(s, address, pin, h, value);
    } else {
      NoWritesAfterFailedCheck(s, address, pin, h, value);
    }
  }

  /** When the direction read gives 0, the one write frame issued is the latch write. */
  lemma WritesAfterPassedCheck(s: BusState, address: bv8, pin: bv8, h: Half, value: bv8)
    requires SelectHalf(pin) == Some(h) && IsWriteAddress(address)
    requires ReadRegister(s, address, h.ioDir).value == 0
    ensures var r := SetRelay(s, address, pin, value);
            WritesBetween(r.trace, |s.trace|) &&
            forall i :: |s.trace| <= i < |r.trace| && Decode(r.trace[i]).Write? ==> Decode(r.trace[i]).register == h.olat
  {
    var dir := ReadRegister(s, address, h.ioDir);
    DecodeEncode(Read(address, h.ioDir));
    UpdateLatchFrames(dir.bus, address, h, value);
    WritesOnlyAtLatch(s.trace, dir.bus.trace, SetRelay(s, address, pin, value).trace, h.olat);
  }

  /**
   * A trace that extends a read frame by a latch read, a latch write and a
   * latch read has exactly one write after the read, and it is to the latch.
   */
  lemma WritesOnlyAtLatch(before: seq<Frame>, afterDir: seq<Frame>, after: seq<Frame>, olat: bv8)
    requires |afterDir| == |before| + 1 && Decode(afterDir[|before|]).Read?
    requires |after| == |afterDir| + 3 && after[..|afterDir|] == afterDir
    requires Decode(after[|afterDir|]).Read? && Decode(after[|afterDir| + 2]).Read?
    requires Decode(after[|afterDir| + 1]).Write? && Decode(after[|afterDir| + 1]).register == olat
    ensures WritesBetween(after, |before|)
    ensures forall i :: |before| <= i < |after| && Decode(after[i]).Write? ==> Decode(after[i]).register == olat
  {
    assert after[|before|] == afterDir[|before|];
    assert Decode(after[|afterDir| + 1]).Write?;
  }

  /** When the direction read gives a nonzero value, the only frame issued is that read. */
  lemma NoWritesAfterFailedCheck(s: BusState, address: bv8, pin: bv8, h: Half, value: bv8)
    requires SelectHalf(pin) == Some(h) && IsWriteAddress(address)
    requires ReadRegister(s, address, h.ioDir).value != 0
    ensures var r := SetRelay(s, address, pin, value);
            r.trace == s.trace + [Encode(Read(address, h.ioDir))] && !WritesBetween(r.trace, |s.trace|)
  {
    DecodeEncode(Read(address, h.ioDir));
  }

  /**
   * A failed latch read counts as 0, so the byte written back has every other
   * output of that half switched off.
   */
  lemma FailedLatchReadClearsOtherOutputs(s: BusState, address: bv8, pin: bv8, value: bv8)
    requires pin < 16 && IsWriteAddress(address)
    requires |s.trace| !in s.faults ==> Peek(s.regs, address, if pin < 8 then IoDirA else IoDirB) == 0
    requires |s.trace| + 1 in s.faults && |s.trace| + 2 !in s.faults
    ensures Peek(SetRelay(s, address, pin, value).regs, address, if pin < 8 then OLatA else OLatB)
            == if value == 0 then 0 else SetMask(pin % 8)
  {
    var h := SelectHalf(pin).value;
    assert h == Half(if pin < 8 then IoDirA else IoDirB, if pin < 8 then OLatA else OLatB, pin % 8);
    FailedLatchReadOf(s, address, pin, h, value);
  }

  /** FailedLatchReadClearsOtherOutputs for the half SelectHalf chose. */
  lemma FailedLatchReadOf(s: BusState, address: bv8, pin: bv8, h: Half, value: bv8)
    requires SelectHalf(pin) == Some(h) && IsWriteAddress(address)
    requires |s.trace| !in s.faults ==> Peek(s.regs, address, h.ioDir) == 0
    requires |s.trace| + 1 in s.faults && |s.trace| + 2 !in s.faults
    ensures Peek(SetRelay(s, address, pin, value).regs, address, h.olat) == if value == 0 then 0 else SetMask(h.bit)
  {
    if |s.trace| !in s.faults {
      DirectionReadsZero(s, address, h.ioDir);
    }
    UpdateLatchAfterFailedRead(ReadRegister(s, address, h.ioDir).bus, address, h, value);
  }

  /** A successful read of a register holding 0 gives 0 and issues one frame. */
  lemma DirectionReadsZero(s: BusState, address: bv8, register: bv8)
    requires IsWriteAddress(address) && |s.trace| !in s.faults && Peek(s.regs, address, register) == 0
    ensures var dir := ReadRegister(s, address, register);
            dir.value == 0 && |dir.bus.trace| == |s.trace| + 1 && dir.bus.faults == s.faults
  {
    assert address & !ReadCmd == address;
  }

  /** The read-modify-write after a failed latch read stores the new bit over a byte of zeros. */
  lemma UpdateLatchAfterFailedRead(s: BusState, address: bv8, h: Half, value: bv8)
    requires IsWriteAddress(address) && |s.trace| in s.faults && |s.trace| + 1 !in s.faults
    ensures Peek(UpdateLatch(s, address, h, value).regs, address, h.olat) == if value == 0 then 0 else SetMask(h.bit)
  {
    var prev := ReadRegister(s, address, h.olat);
    assert prev.value == 0;
    var written := WriteRegister(prev.bus, address, h.olat, NewLatch(0, h.bit, value));
    assert Peek(written.bus.regs, address, h.olat) == NewLatch(0, h.bit, value);
  }

  /**
   * Whatever the transfers return, a relay update stores nothing outside the
   * pin's output latch on the addressed chip.
   */
  lemma SetRelayStoresOnlyLatch(s: BusState, address: bv8, pin: bv8, value: bv8, a: bv8, reg: bv8)
    requires (a, reg) != (address, if pin < 8 then OLatA else OLatB)
    ensures Peek(SetRelay(s, address, pin, value).regs, a, reg) == Peek(s.regs, a, reg)
  {
  }

  /** When the latch write itself fails, a relay update stores nothing at all. */
  lemma FailedWriteStoresNothing(s: BusState, address: bv8, pin: bv8, value: bv8)
    requires |s.trace| + 2 in s.faults
    ensures SetRelay(s, address, pin, value).regs == s.regs
  {
  }

  /**
   * A failed direction read counts as "all outputs", so the update goes
   * ahead: with the remaining transfers succeeding, the latch takes NewLatch
   * of its old value and nothing else changes.
   */
  lemma FailedDirectionReadProceeds(s: BusState, address: bv8, pin: bv8, value: bv8)
    requires pin < 16 && IsWriteAddress(address)
    requires |s.trace| in s.faults && |s.trace| + 1 !in s.faults && |s.trace| + 2 !in s.faults && |s.trace| + 3 !in s.faults
    ensures var olat := if pin < 8 then OLatA else OLatB;
            var r := SetRelay(s, address, pin, value);
            |r.trace| == |s.trace| + 4 &&
            r.regs == s.regs[(address, olat) := NewLatch(Peek(s.regs, address, olat), pin % 8, value)]
  {
    var h := SelectHalf(pin).value;
    assert h == Half(if pin < 8 then IoDirA else IoDirB, if pin < 8 then OLatA else OLatB, pin % 8);
    FailedDirectionReadOf(s, address, pin, h, value);
  }

  /** FailedDirectionReadProceeds for the half SelectHalf chose. */
  lemma FailedDirectionReadOf(s: BusState, address: bv8, pin: bv8, h: Half, value: bv8)
    requires SelectHalf(pin) == Some(h) && IsWriteAddress(address)
    requires |s.trace| in s.faults && |s.trace| + 1 !in s.faults && |s.trace| + 2 !in s.faults && |s.trace| + 3 !in s.faults
    ensures var r := SetRelay(s, address, pin, value);
            |r.trace| == |s.trace| + 4 &&
            r.regs == s.regs[(address, h.olat) := NewLatch(Peek(s.regs, address, h.olat), h.bit, value)]
  {
    var dir := ReadRegister(s, address, h.ioDir);
    assert dir.value == 0 && dir.bus.regs == s.regs;
    assert NoFaults(dir.bus, 3);
    UpdateLatchNoFaults(dir.bus, address, h, value);
  }

  /** On a chip address with bit 0 set every write frame reads as a read, so nothing is stored. */
  lemma OddAddressStoresNothing(s: BusState, address: bv8, pin: bv8, value: bv8)
    requires !IsWriteAddress(address)
    ensures SetRelay(s, address, pin, value).regs == s.regs
  {
  }

  /**
   * Repeating an update with the same pin and value leaves every register as
   * the first update left it.
   */
  lemma SetRelayIdempotent(s: BusState, address: bv8, pin: bv8, value: bv8)
    requires NoFaults(s, 8)
    ensures var once := SetRelay(s, address, pin, value);
            SetRelay(once, address, pin, value).regs == once.regs
  {
    var once := SetRelay(s, address, pin, value);
    if !IsWriteAddress(address) {
      OddAddressStoresNothing(s, address, pin, value);
      OddAddressStoresNothing(once, address, pin, value);
    } else if pin < 16 {
      var h := SelectHalf(pin).value;
      IdempotentOf(s, address, pin, h, value);
    }
  }

  /** SetRelayIdempotent for an even chip address and the half SelectHalf chose. */
  lemma IdempotentOf(s: BusState, address: bv8, pin: bv8, h: Half, value: bv8)
    requires SelectHalf(pin) == Some(h) && IsWriteAddress(address) && NoFaults(s, 8)
    ensures var once := SetRelay(s, address, pin, value);
            SetRelay(once, address, pin, value).regs == once.regs
  {
    if Peek(s.regs, address, h.ioDir) == 0 {
      IdempotentWhenOutput(s, address, pin, h, value);
    } else {
      IdempotentWhenNotOutput(s, address, pin, h, value);
    }
  }

  lemma IdempotentWhenOutput(s: BusState, address: bv8, pin: bv8, h: Half, value: bv8)
    requires SelectHalf(pin) == Some(h) && IsWriteAddress(address) && NoFaults(s, 8)
    requires Peek(s.regs, address, h.ioDir) == 0
    ensures var once := SetRelay(s, address, pin, value);
            SetRelay(once, address, pin, value).regs == once.regs
  {
    FirstUpdateFacts(s, address, pin, h, value);
    RepeatStoresNothingNew(SetRelay(s, address, pin, value), address, pin, h, value);
  }

  lemma FirstUpdateFacts(s: BusState, address: bv8, pin: bv8, h: Half, value: bv8)
    requires SelectHalf(pin) == Some(h) && IsWriteAddress(address) && NoFaults(s, 8)
    requires Peek(s.regs, address, h.ioDir) == 0
    ensures var once := SetRelay(s, address, pin, value);
            Peek(once.regs, address, h.ioDir) == 0 && (address, h.olat) in once.regs && NoFaults(once, 4) &&
            NewLatch(once.regs[(address, h.olat)], h.bit, value) == once.regs[(address, h.olat)]
  {
    var once := SetRelay(s, address, pin, value);
    var next := NewLatch(Peek(s.regs, address, h.olat), h.bit, value);
    SuccessPathOf(s, address, pin, h, value);
    NewLatchLastWins(Peek(s.regs, address, h.olat), h.bit, value, value);
    assert h.ioDir != h.olat;
  }

  /** An update that finds its bit already in the requested state stores nothing new. */
  lemma RepeatStoresNothingNew(s: BusState, address: bv8, pin: bv8, h: Half, value: bv8)
    requires SelectHalf(pin) == Some(h) && IsWriteAddress(address) && NoFaults(s, 4)
    requires Peek(s.regs, address, h.ioDir) == 0 && (address, h.olat) in s.regs
    requires NewLatch(s.regs[(address, h.olat)], h.bit, value) == s.regs[(address, h.olat)]
    ensures SetRelay(s, address, pin, value).regs == s.regs
  {
    var key := (address, h.olat);
    assert Peek(s.regs, address, h.olat) == s.regs[key];
    SuccessPathOf(s, address, pin, h, value);
    MapStoreSame(s.regs, key);
  }

  /** Storing a key's own value back leaves a map as it was. */
  lemma MapStoreSame<K, V>(m: map<K, V>, k: K)
    requires k in m
    ensures m[k := m[k]] == m
  {
  }

  lemma IdempotentWhenNotOutput(s: BusState, address: bv8, pin: bv8, h: Half, value: bv8)
    requires SelectHalf(pin) == Some(h) && IsWriteAddress(address) && NoFaults(s, 8)
    requires Peek(s.regs, address, h.ioDir) != 0
    ensures var once := SetRelay(s, address, pin, value);
            SetRelay(once, address, pin, value).regs == once.regs
  {
    assert address & !ReadCmd == address;
    var once := SetRelay(s, address, pin, value);
    assert once == ReadRegister(s, address, h.ioDir).bus;
    assert ReadRegister(once, address, h.ioDir).value != 0;
  }
}
