/// The entities the timer driver works on: the caller-owned callback records,
/// one timer's register block, the channel usage tags, the hardware channel
/// table entries and the trace of externally visible effects.
module TimerTypes {

  import opened Bits

  /** channelType_t: what a hardware timer channel has been allocated to. */
  datatype ChannelType =
    | TypeFree
    | TypePwmInput
    | TypePpmInput
    | TypePwmOutputFast
    | TypePwmOutputStandard
    | TypeSoftSerialRx
    | TypeSoftSerialTx
    | TypeSoftSerialRxTx
    | TypeSoftSerialAuxTimer
    | TypeAdc
    | TypeSerialRx
    | TypeSerialTx
    | TypeSerialRxTx
    | TypeTimer

  /** One entry of the TIMER_HARDWARE table: the timer (by number) and the
      channel, numbered 1..4 on this port, that a pin is routed to. */
  datatype TimerHardware = TimerHardware(tim: nat, channel: uint16)

  /** timerCCHandlerRec_t: a caller-owned capture/compare callback; fn stands for
      the callback function pointer. */
  class CCHandlerRec {
    var fn: nat

    constructor (f: nat)
      ensures fn == f
    {
      fn := f;
    }

    /** timerChCCHandlerInit */
    method Init(f: nat)
      modifies this
      ensures fn == f
    {
      fn := f;
    }
  }

  /** timerOvrHandlerRec_t: a caller-owned overflow callback and the link the
      driver threads its overflow chain through. */
  class OvrHandlerRec {
    var fn: nat
    var next: OvrHandlerRec?

    constructor (f: nat)
      ensures fn == f && next == null
    {
      fn := f;
      next := null;
    }

    /** timerChOvrHandlerInit: sets the callback and unlinks the record. */
    method Init(f: nat)
      modifies this
      ensures fn == f && next == null
    {
      fn := f;
      next := null;
    }
  }

  /** Bit 0 of the status and enable registers: the overflow (update) event. */
  const OvfBit: nat := 0

  /** Effects of the driver that leave the modelled state: register writes whose
      order matters, interrupt controller calls and callback invocations. */
  datatype Event =
    | IrqEnable(timer: nat, mask: nat, on: bool)
    | FlagClear(timer: nat, mask: nat)
    | CallbackSlotsWrite(timer: nat, slot: nat)
    | NvicEnable(irq: nat, priority: int)
    | EdgeCall(rec: CCHandlerRec?, value: uint32)
    | OverflowCall(ovr: OvrHandlerRec, capture: uint16)

  /** The register values of one timer, as a value. */
  datatype TmrState = TmrState(
    ists: uint32, iden: uint32, pr: uint32, div: uint32, cval: uint32,
    c1dt: uint32, c2dt: uint32, c3dt: uint32, c4dt: uint32,
    counting: bool, ovfswtr: bool)

  /** The enable register after tmr_interrupt_enable(mask, on). */
  function EnableWrite(iden: uint32, mask: uint32, on: bool): (r: uint32)
    ensures forall k :: Bit(r, k) == (if Bit(mask, k) then on else Bit(iden, k))
  {
    forall k ensures Bit(And32(iden, Not32(mask)), k) == (Bit(iden, k) && !Bit(mask, k)) {
      NotBit(mask, k);
      if k >= 32 {
        NoHighBit(iden, k);
      }
    }
    if on then Or32(iden, mask) else And32(iden, Not32(mask))
  }

  /** The status register after the write ists = mask: its flags are
      clear-on-write-zero, so the bits that are zero in mask are cleared and the
      others keep their value. */
  function FlagWrite(ists: uint32, mask: uint32): (r: uint32)
    ensures forall k :: Bit(r, k) == (Bit(ists, k) && Bit(mask, k))
  {
    And32(ists, mask)
  }

  /** One timer's register block (tmr_type), identified by its timer number and
      clocked by its input clock timerClock(tim). */
  class Tmr {
    const number: nat
    const clock: uint32
    var ists: uint32
    var iden: uint32
    var pr: uint32
    var div: uint32
    var cval: uint32
    var c1dt: uint32
    var c2dt: uint32
    var c3dt: uint32
    var c4dt: uint32
    var counting: bool
    var ovfswtr: bool

    constructor (n: nat, clk: uint32)
      ensures number == n && clock == clk
      ensures State() == TmrState(0, 0, 0, 0, 0, 0, 0, 0, 0, false, false)
    {
      number, clock := n, clk;
      ists, iden, pr, div, cval := 0, 0, 0, 0, 0;
      c1dt, c2dt, c3dt, c4dt := 0, 0, 0, 0;
      counting, ovfswtr := false, false;
    }

    function State(): TmrState
      reads this
    {
      TmrState(ists, iden, pr, div, cval, c1dt, c2dt, c3dt, c4dt, counting, ovfswtr)
    }

    /** The capture/compare registers c1dt..c4dt. */
    function Captures(): (c: seq<uint32>)
      reads this
      ensures |c| == 4
    {
      [c1dt, c2dt, c3dt, c4dt]
    }

    /** tmr_interrupt_enable: sets or clears the mask bits of the enable register. */
    method InterruptEnable(mask: uint32, on: bool)
      modifies this
      ensures State() == old(State()).(iden := EnableWrite(old(iden), mask, on))
    {
      iden := EnableWrite(iden, mask, on);
    }

    /** The status register write ists = mask. */
    method WriteFlags(mask: uint32)
      modifies this
      ensures State() == old(State()).(ists := FlagWrite(old(ists), mask))
    {
      ists := FlagWrite(ists, mask);
    }

    /** tmr_base_init: programs the period and prescaler registers. */
    method BaseInit(period: uint16, prescaler: uint32)
      modifies this
      ensures State() == old(State()).(pr := period, div := prescaler)
    {
      pr, div := period, prescaler;
    }

    /** tmr_counter_enable(tim, TRUE) */
    method CounterEnable()
      modifies this
      ensures State() == old(State()).(counting := true)
    {
      counting := true;
    }

    /** The software overflow trigger swevt.ovfswtr = 1. */
    method TriggerOverflow()
      modifies this
      ensures State() == old(State()).(ovfswtr := true)
    {
      ovfswtr := true;
    }
  }
}
