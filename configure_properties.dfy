/**
 * What the configuration pass does to the bus: the 18 write frames it issues
 * whatever the transfers return, their order, and the registers it leaves
 * behind when no transfer fails.
 */
module ConfigureProperties {
  import opened Mcp23s17
  import opened Frames
  import opened SpiBus
  import opened Driver

  /** The IOCON write frames of the first pass, in chip order. */
  function IoConFrames(addrs: seq<bv8>): (frames: seq<Frame>)
  {
    seq(|addrs|, i requires 0 <= i < |addrs| => Encode(Write(addrs[i], IoCon, IoConByte)))
  }

  /** The direction write frames of the second pass: IoDirA then IoDirB for each chip in order. */
  function IoDirFrames(addrs: seq<bv8>): (frames: seq<Frame>)
  {
    seq(2 * |addrs|, i requires 0 <= i < 2 * |addrs| =>
      Encode(Write(addrs[i / 2], if i % 2 == 0 then IoDirA else IoDirB, 0x00)))
  }

  /**
   * The IOCON byte is exactly hardware addressing plus open-drain interrupt
   * output: bank mode, interrupt mirroring, slew-rate control and active-high
   * interrupts stay off, and sequential operation stays enabled.
   */
  lemma IoConByteIsFlags()
    ensures IoConByte == HaEnOn | ODrOn
    ensures IoConByte & BankOn == 0 && IoConByte & IntMirrorOn == 0 && IoConByte & SeqOpOff == 0
    ensures IoConByte & DisSlwOn == 0 && IoConByte & IntPolHigh == 0
  {
  }

  /** Every chip address of the bank has its read/write bit clear. */
  lemma ChipAddressesAreWriteAddresses()
    ensures |SpiAddressMap| == 6
    ensures forall i :: 0 <= i < |SpiAddressMap| ==> IsWriteAddress(SpiAddressMap[i])
    ensures forall i, j :: 0 <= i < j < |SpiAddressMap| ==> SpiAddressMap[i] != SpiAddressMap[j]
  {
  }

  /** The first pass issues one IOCON write per chip, in order, whatever the transfers return. */
  lemma {:induction false} IoConPassTrace(s: BusState, addrs: seq<bv8>)
    ensures IoConPass(s, addrs).trace == s.trace + IoConFrames(addrs)
    ensures IoConPass(s, addrs).faults == s.faults
  {
    if addrs != [] {
      var init := addrs[..|addrs| - 1];
      IoConPassTrace(s, init);
      assert IoConFrames(addrs) == IoConFrames(init) + [Encode(Write(addrs[|addrs| - 1], IoCon, IoConByte))];
    }
  }

  /** The second pass issues IoDirA then IoDirB per chip, in order, whatever the transfers return. */
  lemma {:induction false} IoDirPassTrace(s: BusState, addrs: seq<bv8>)
    ensures IoDirPass(s, addrs).trace == s.trace + IoDirFrames(addrs)
    ensures IoDirPass(s, addrs).faults == s.faults
  {
    if addrs != [] {
      var init, a := addrs[..|addrs| - 1], addrs[|addrs| - 1];
      IoDirPassTrace(s, init);
      IoDirPassStepTrace(s, addrs);
      IoDirFramesLast(addrs);
      AppendAssoc(s.trace, IoDirFrames(init), [Encode(Write(a, IoDirA, 0x00)), Encode(Write(a, IoDirB, 0x00))]);
    }
  }

  /** The last chip of the second pass adds its two direction frames to the trace. */
  lemma IoDirPassStepTrace(s: BusState, addrs: seq<bv8>)
    requires addrs != []
    ensures var a := addrs[|addrs| - 1];
            IoDirPass(s, addrs).trace ==
            IoDirPass(s, addrs[..|addrs| - 1]).trace + [Encode(Write(a, IoDirA, 0x00)), Encode(Write(a, IoDirB, 0x00))]
  {
    var a := addrs[|addrs| - 1];
    var mid := IoDirPass(s, addrs[..|addrs| - 1]);
    AppendAssoc(mid.trace, [Encode(Write(a, IoDirA, 0x00))], [Encode(Write(a, IoDirB, 0x00))]);
  }

  lemma AppendRight<T>(x: seq<T>, y: seq<T>, k: int)
    requires 0 <= k < |y|
    ensures (x + y)[|x| + k] == y[k]
  {
  }

  lemma AppendAssoc<T>(x: seq<T>, y: seq<T>, z: seq<T>)
    ensures x + y + z == x + (y + z)
  {
  }

  /** Appending a chip appends its IoDirA and IoDirB writes to the direction frames. */
  lemma IoDirFramesSnoc(addrs: seq<bv8>, a: bv8)
    ensures IoDirFrames(addrs + [a]) == IoDirFrames(addrs) + [Encode(Write(a, IoDirA, 0x00)), Encode(Write(a, IoDirB, 0x00))]
  {
    var longer := addrs + [a];
    var n := 2 * |addrs|;
    forall k | 0 <= k < n
      ensures IoDirFrames(longer)[k] == IoDirFrames(addrs)[k]
    {
      assert k / 2 < |addrs|;
      assert longer[k / 2] == addrs[k / 2];
    }
    assert n / 2 == |addrs| && (n + 1) / 2 == |addrs| && n % 2 == 0 && (n + 1) % 2 == 1;
  }

  /** IoDirFramesSnoc, read from the end of a nonempty chip list. */
  lemma IoDirFramesLast(addrs: seq<bv8>)
    requires addrs != []
    ensures var a := addrs[|addrs| - 1];
            IoDirFrames(addrs) ==
            IoDirFrames(addrs[..|addrs| - 1]) + [Encode(Write(a, IoDirA, 0x00)), Encode(Write(a, IoDirB, 0x00))]
  {
    var init, a := addrs[..|addrs| - 1], addrs[|addrs| - 1];
    assert addrs == init + [a];
    IoDirFramesSnoc(init, a);
  }


  /** Configuration issues the six IOCON writes and then the twelve direction writes; no error stops it. */
  lemma ConfigureTrace(s: BusState)
    ensures Configure(s).trace == s.trace + IoConFrames(SpiAddressMap) + IoDirFrames(SpiAddressMap)
  {
    IoConPassTrace(s, SpiAddressMap);
    IoDirPassTrace(IoConPass(s, SpiAddressMap), SpiAddressMap);
  }

  /**
   * The frames configuration issues are 18 writes: first IOCON to each chip
   * in bank order, then IoDirA and IoDirB to each chip in bank order; every
   * IOCON write precedes every direction write.
   */
  lemma ConfigureOrder(s: BusState)
    ensures |Configure(s).trace| == |s.trace| + 18
    ensures var t := Configure(s).trace[|s.trace|..];
            |t| == 18 &&
            (forall i :: 0 <= i < 6 ==> Decode(t[i]) == Write(SpiAddressMap[i], IoCon, IoConByte)) &&
            (forall i :: 0 <= i < 6 ==>
               Decode(t[6 + 2 * i]) == Write(SpiAddressMap[i], IoDirA, 0x00) &&
               Decode(t[7 + 2 * i]) == Write(SpiAddressMap[i], IoDirB, 0x00)) &&
            (forall i, j ::
               (0 <= i < 18 && 0 <= j < 18 && Decode(t[i]).register == IoCon && Decode(t[j]).register != IoCon) ==> i < j)
  {
    ConfigureTrace(s);
    assert Configure(s).trace[|s.trace|..] == IoConFrames(SpiAddressMap) + IoDirFrames(SpiAddressMap);
    ConfigFramesOrder();
  }

  /** ConfigureOrder, stated of the frame list itself. */
  lemma ConfigFramesOrder()
    ensures var t := IoConFrames(SpiAddressMap) + IoDirFrames(SpiAddressMap);
            |t| == 18 &&
            (forall i :: 0 <= i < 6 ==> Decode(t[i]) == Write(SpiAddressMap[i], IoCon, IoConByte)) &&
            (forall i :: 0 <= i < 6 ==>
               Decode(t[6 + 2 * i]) == Write(SpiAddressMap[i], IoDirA, 0x00) &&
               Decode(t[7 + 2 * i]) == Write(SpiAddressMap[i], IoDirB, 0x00)) &&
            (forall i, j ::
               (0 <= i < 18 && 0 <= j < 18 && Decode(t[i]).register == IoCon && Decode(t[j]).register != IoCon) ==> i < j)
  {
    ChipAddressesAreWriteAddresses();
    FramesOrder(SpiAddressMap);
  }

  /** The order claims of ConfigFramesOrder, for any list of chip addresses. */
  lemma FramesOrder(addrs: seq<bv8>)
    requires forall i :: 0 <= i < |addrs| ==> IsWriteAddress(addrs[i])
    ensures var n, t := |addrs|, IoConFrames(addrs) + IoDirFrames(addrs);
            |t| == 3 * n &&
            (forall i :: 0 <= i < n ==> Decode(t[i]) == Write(addrs[i], IoCon, IoConByte)) &&
            (forall i :: 0 <= i < n ==>
               Decode(t[n + 2 * i]) == Write(addrs[i], IoDirA, 0x00) &&
               Decode(t[n + 2 * i + 1]) == Write(addrs[i], IoDirB, 0x00)) &&
            (forall i, j ::
               (0 <= i < |t| && 0 <= j < |t| && Decode(t[i]).register == IoCon && Decode(t[j]).register != IoCon) ==> i < j)
  {
    ConFramesFirst(addrs);
    DirFramesNext(addrs);
    IoConFramesFirst(addrs);
  }

  /** The first |addrs| frames of the configuration are the IOCON writes. */
  lemma ConFramesFirst(addrs: seq<bv8>)
    requires forall i :: 0 <= i < |addrs| ==> IsWriteAddress(addrs[i])
    ensures var t := IoConFrames(addrs) + IoDirFrames(addrs);
            |t| == 3 * |addrs| &&
            forall i :: 0 <= i < |addrs| ==> Decode(t[i]) == Write(addrs[i], IoCon, IoConByte)
  {
    var con, dir := IoConFrames(addrs), IoDirFrames(addrs);
    IoConFramesDecode(addrs);
    forall i | 0 <= i < |addrs|
      ensures Decode((con + dir)[i]) == Write(addrs[i], IoCon, IoConByte)
    {
      assert (con + dir)[i] == con[i];
    }
  }

  /** After them come the IODIRA and IODIRB writes, chip by chip. */
  lemma DirFramesNext(addrs: seq<bv8>)
    requires forall i :: 0 <= i < |addrs| ==> IsWriteAddress(addrs[i])
    ensures var n, t := |addrs|, IoConFrames(addrs) + IoDirFrames(addrs);
            |t| == 3 * n &&
            forall i :: 0 <= i < n ==>
              Decode(t[n + 2 * i]) == Write(addrs[i], IoDirA, 0x00) &&
              Decode(t[n + 2 * i + 1]) == Write(addrs[i], IoDirB, 0x00)
  {
    forall i | 0 <= i < |addrs|
      ensures var n, t := |addrs|, IoConFrames(addrs) + IoDirFrames(addrs);
              Decode(t[n + 2 * i]) == Write(addrs[i], IoDirA, 0x00) &&
              Decode(t[n + 2 * i + 1]) == Write(addrs[i], IoDirB, 0x00)
    {
      DirFramesAt(addrs, i);
    }
  }

  /** DirFramesNext for the chip at index i. */
  lemma DirFramesAt(addrs: seq<bv8>, i: nat)
    requires i < |addrs| && IsWriteAddress(addrs[i])
    ensures var n, t := |addrs|, IoConFrames(addrs) + IoDirFrames(addrs);
            Decode(t[n + 2 * i]) == Write(addrs[i], IoDirA, 0x00) &&
            Decode(t[n + 2 * i + 1]) == Write(addrs[i], IoDirB, 0x00)
  {
    var con, dir := IoConFrames(addrs), IoDirFrames(addrs);
    assert |con| == |addrs| && |dir| == 2 * |addrs|;
    AppendRight(con, dir, 2 * i);
    AppendRight(con, dir, 2 * i + 1);
    assert (2 * i) / 2 == i && (2 * i + 1) / 2 == i && (2 * i) % 2 == 0 && (2 * i + 1) % 2 == 1;
    DecodeEncode(Write(addrs[i], IoDirA, 0x00));
    DecodeEncode(Write(addrs[i], IoDirB, 0x00));
  }

  /** Every IOCON frame of the configuration comes before every other frame. */
  lemma IoConFramesFirst(addrs: seq<bv8>)
    requires forall i :: 0 <= i < |addrs| ==> IsWriteAddress(addrs[i])
    ensures var t := IoConFrames(addrs) + IoDirFrames(addrs);
            forall i, j ::
              (0 <= i < |t| && 0 <= j < |t| && Decode(t[i]).register == IoCon && Decode(t[j]).register != IoCon) ==> i < j
  {
    var n, con, dir := |addrs|, IoConFrames(addrs), IoDirFrames(addrs);
    assert |con| == n && |dir| == 2 * n;
    var t := con + dir;
    forall j | n <= j < 3 * n
      ensures Decode(t[j]).register != IoCon
    {
      AppendRight(con, dir, j - n);
    }
    forall i | 0 <= i < n
      ensures Decode(t[i]).register == IoCon
    {
      assert t[i] == con[i];
    }
  }

  /** Each IOCON frame decodes as the IOCON write to its chip. */
  lemma IoConFramesDecode(addrs: seq<bv8>)
    requires forall i :: 0 <= i < |addrs| ==> IsWriteAddress(addrs[i])
    ensures forall i :: 0 <= i < |addrs| ==> Decode(IoConFrames(addrs)[i]) == Write(addrs[i], IoCon, IoConByte)
  {
    forall i | 0 <= i < |addrs|
      ensures Decode(IoConFrames(addrs)[i]) == Write(addrs[i], IoCon, IoConByte)
    {
      DecodeEncode(Write(addrs[i], IoCon, IoConByte));
    }
  }

  /**
   * Without transport errors the first pass leaves IOCON of every listed chip
   * at the configuration byte and every other register as it was.
   */
  lemma {:induction false} IoConPassStore(s: BusState, addrs: seq<bv8>)
    requires NoFaults(s, |addrs|)
    requires forall i :: 0 <= i < |addrs| ==> IsWriteAddress(addrs[i])
    ensures forall a, reg :: Peek(IoConPass(s, addrs).regs, a, reg) ==
              if a in addrs && reg == IoCon then IoConByte else Peek(s.regs, a, reg)
  {
    if addrs != [] {
      var init := addrs[..|addrs| - 1];
      var last := addrs[|addrs| - 1];
      assert addrs == init + [last];
      IoConPassStore(s, init);
      IoConPassTrace(s, init);
      var mid := IoConPass(s, init);
      assert |mid.trace| !in mid.faults;
      IoConStepStore(mid, last);
      forall a, reg
        ensures Peek(IoConPass(s, addrs).regs, a, reg) ==
                if a in addrs && reg == IoCon then IoConByte else Peek(s.regs, a, reg)
      {
        assert a in addrs <==> a in init || a == last;
        assert Peek(mid.regs, a, reg) == if a in init && reg == IoCon then IoConByte else Peek(s.regs, a, reg);
      }
    }
  }

  /** One chip's step of the first pass, without transport errors, sets its IOCON. */
  lemma IoConStepStore(mid: BusState, last: bv8)
    requires NoFaults(mid, 1) && IsWriteAddress(last)
    ensures forall a, reg :: Peek(WriteRegister(mid, last, IoCon, IoConByte).bus.regs, a, reg) ==
              if a == last && reg == IoCon then IoConByte else Peek(mid.regs, a, reg)
  {
  }

  /**
   * Without transport errors the second pass leaves both direction registers
   * of every listed chip at 0 (all outputs) and every other register as it was.
   */
  lemma {:induction false} IoDirPassStore(s: BusState, addrs: seq<bv8>)
    requires NoFaults(s, 2 * |addrs|)
    requires forall i :: 0 <= i < |addrs| ==> IsWriteAddress(addrs[i])
    ensures forall a, reg :: Peek(IoDirPass(s, addrs).regs, a, reg) ==
              if a in addrs && (reg == IoDirA || reg == IoDirB) then 0x00 else Peek(s.regs, a, reg)
  {
    if addrs != [] {
      var init := addrs[..|addrs| - 1];
      var last := addrs[|addrs| - 1];
      assert addrs == init + [last];
      IoDirPassStore(s, init);
      IoDirPassTrace(s, init);
      var mid := IoDirPass(s, init);
      assert |mid.trace| !in mid.faults && |mid.trace| + 1 !in mid.faults;
      IoDirStepStore(mid, last);
      forall a, reg
        ensures Peek(IoDirPass(s, addrs).regs, a, reg) ==
                if a in addrs && (reg == IoDirA || reg == IoDirB) then 0x00 else Peek(s.regs, a, reg)
      {
        assert a in addrs <==> a in init || a == last;
        assert Peek(mid.regs, a, reg) ==
               if a in init && (reg == IoDirA || reg == IoDirB) then 0x00 else Peek(s.regs, a, reg);
      }
    }
  }

  /** One chip's step of the second pass, without transport errors, zeroes its two direction registers. */
  lemma IoDirStepStore(mid: BusState, last: bv8)
    requires NoFaults(mid, 2) && IsWriteAddress(last)
    ensures var first := WriteRegister(mid, last, IoDirA, 0x00);
            var second := WriteRegister(first.bus, last, IoDirB, 0x00);
            forall a, reg :: Peek(second.bus.regs, a, reg) ==
              if a == last && (reg == IoDirA || reg == IoDirB) then 0x00 else Peek(mid.regs, a, reg)
  {
    var first := WriteRegister(mid, last, IoDirA, 0x00);
    assert first.bus.regs == mid.regs[(last, IoDirA) := 0x00];
    assert |first.bus.trace| !in first.bus.faults;
  }

  /**
   * Without transport errors, configuration leaves every chip of the bank
   * with IOCON at 0x0C and both direction registers at 0, and changes no
   * other register.
   */
  lemma ConfigureStore(s: BusState)
    requires NoFaults(s, 18)
    ensures forall a, reg :: Peek(Configure(s).regs, a, reg) ==
              if a in SpiAddressMap && reg == IoCon then IoConByte
              else if a in SpiAddressMap && (reg == IoDirA || reg == IoDirB) then 0x00
              else Peek(s.regs, a, reg)
  {
    ChipAddressesAreWriteAddresses();
    IoConPassStore(s, SpiAddressMap);
    IoConPassTrace(s, SpiAddressMap);
    IoDirPassStore(IoConPass(s, SpiAddressMap), SpiAddressMap);
  }
}
