/**
 * The shared SPI connection and the chips behind it. The transfer itself
 * belongs to an external library; it is modelled as a transfer against a store
 * of chip registers, with failures taken from a fault schedule.
 */
module SpiBus {
  import opened Wrappers
  import opened Mcp23s17
  import opened Frames

  /** A transport-level failure of one transfer. */
  datatype Error = TransportError(reason: string)

  /**
   * Everything a transfer can observe or change: the register file of every
   * chip keyed by (chip address, register), the frames issued so far, and the
   * transfers (numbered from 0) that fail and with which error.
   */
  datatype BusState = BusState(regs: map<(bv8, bv8), bv8>, trace: seq<Frame>, faults: map<nat, Error>)

  /** The value a chip holds in a register; a register never stored reads as 0. */
  function Peek(regs: map<(bv8, bv8), bv8>, address: bv8, register: bv8): (v: bv8)
  {
    if (address, register) in regs then regs[(address, register)] else 0
  }

  /** The error, if any, the transfer numbered i fails with. */
  function FaultAt(s: BusState, i: nat): (e: Option<Error>)
  {
    if i in s.faults then Some(s.faults[i]) else None
  }

  /** No transfer among the next count ones is scheduled to fail. */
  predicate NoFaults(s: BusState, count: nat)
  {
    forall i :: |s.trace| <= i < |s.trace| + count ==> i !in s.faults
  }

  datatype TxResult = TxResult(bus: BusState, read: Frame, err: Option<Error>)

  /**
   * One full-duplex transfer of a request frame. The frame is issued whether
   * or not it fails; a failed transfer changes no register. Otherwise a read
   * frame returns the addressed register in the third reply byte and a write
   * frame stores its data byte.
   */
  function Transfer(s: BusState, write: Frame): (r: TxResult)
    ensures r.bus.trace == s.trace + [write] && r.bus.faults == s.faults
    ensures r.err == FaultAt(s, |s.trace|)
    ensures r.err.None? && Decode(write).Read? ==>
              r.read[2] == Peek(s.regs, Decode(write).address, write[1]) && r.bus.regs == s.regs
    ensures r.err.None? && Decode(write).Write? ==> r.bus.regs == s.regs[(write[0], write[1]) := write[2]]
    ensures r.err.Some? ==> r.bus.regs == s.regs
  {
    var issued := s.(trace := s.trace + [write]);
    var n := |s.trace|;
    if n in s.faults then TxResult(issued, [0, 0, 0], Some(s.faults[n]))
    else
      match Decode(write)
      case Write(a, r, v) => TxResult(issued.(regs := s.regs[(a, r) := v]), [0, 0, 0], None)
      case Read(a, r) => TxResult(issued, [0, 0, Peek(s.regs, a, r)], None)
  }

  /** The bus connection: the chips' registers, the frames issued, the fault schedule. */
  class Bus {
    var regs: map<(bv8, bv8), bv8>
    var trace: seq<Frame>
    const faults: map<nat, Error>

    function State(): (s: BusState)
      reads this
    {
      BusState(regs, trace, faults)
    }

    constructor (regs: map<(bv8, bv8), bv8>, faults: map<nat, Error>)
      ensures State() == BusState(regs, [], faults)
    {
      this.regs := regs;
      this.trace := [];
      this.faults := faults;
    }

    /** Issues one request frame and returns the reply frame and the transport error, if any. */
    method Tx(write: Frame) returns (read: Frame, err: Option<Error>)
      modifies this
      ensures TxResult(State(), read, err) == Transfer(old(State()), write)
    {
      var n := |trace|;
      trace := trace + [write];
      if n in faults {
        return [0, 0, 0], Some(faults[n]);
      }
      match Decode(write) {
        case Write(a, r, v) =>
          regs := regs[(a, r) := v];
          read := [0, 0, 0];
        case Read(a, r) =>
          read := [0, 0, Peek(regs, a, r)];
      }
      err := None;
    }
  }
}
