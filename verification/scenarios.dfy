/// Concrete runs of the driver on the modelled target, each stated as the exact
/// effects it produces: a forced overflow followed by two overflow interrupts,
/// and the callback registration of a capture channel.
module TimerScenarios {

  import opened Bits
  import opened TimerIndex
  import opened TimerHelpers
  import opened TimerTypes
  import opened TimerConfigs
  import opened TimerDispatch
  import opened TimerSubsystems

  /** A status register holding flag n alone, with n enabled, leaves n alone
      pending. */
  lemma OnlyFlag(iden: uint32, n: nat)
    requires n < 32 && Bit(iden, n)
    ensures Pow2(n) < 0x1_0000_0000
    ensures And32(Pow2(n), iden) == Pow2(n)
  {
    OnlyBit(n);
    Pow2Value32();
    Pow2Monotone(n + 1, 32);
    forall k | 0 <= k < 32
      ensures Bit(And32(Pow2(n), iden), k) == Bit(Pow2(n), k)
    {
    }
    Extensional(And32(Pow2(n), iden), Pow2(n), 32);
  }

  /** TMR1 has the first dense slot, and the lookup knows it. */
  lemma Timer1Slot()
    ensures Bit(UsedTimers, 1) && TimerIndexOf(1) == 0 && LookupTimerIndex(1) == 0
  {
    UsedBit(1);
  }

  /** The update slot alone set: the chain is that one record. */
  lemma SoleRecord(rec: OvrHandlerRec)
    ensures NonNull([rec, null, null, null, null]) == [rec]
  {
    var slots: seq<OvrHandlerRec?> := [rec, null, null, null, null];
    SlotStep(slots, 0);
    SlotStep(slots, 1);
    SlotStep(slots, 2);
    SlotStep(slots, 3);
    SlotStep(slots, 4);
    assert slots[..5] == slots;
  }

  /** TMR1's register block and timerConfig entry after reset, with one overflow
      record registered as the update callback: the chain holds that record
      alone and the overflow interrupt is enabled. */
  method Timer1WithRecord() returns (tim: Tmr, cfg: TimerConfig, rec: OvrHandlerRec)
    ensures fresh(tim) && fresh(cfg) && fresh(rec)
    ensures tim.number == 1 && cfg.Valid() && cfg.Chain() == [rec]
    ensures cfg.forcedOverflowTimerValue == 0 && Bit(tim.iden, 0)
  {
    tim := new Tmr(1, 0);
    cfg := new TimerConfig();
    rec := new OvrHandlerRec(1);
    cfg.ClearedValid();
    var setup := ConfigUpdateOn(tim, cfg, rec);
    assert cfg.Slots() == [rec, null, null, null, null];
    SoleRecord(rec);
    assert Bit(Pow2(0), 0);
  }

  /** With flag n alone raised, the dispatcher dereferences an empty edge slot
      exactly when n is an enabled capture/compare channel whose slot n - 1 is
      null. */
  lemma OneFlagReady(tim: Tmr, cfg: TimerConfig, n: nat)
    requires cfg.Shaped() && tim.ists == Pow2(n)
    ensures EdgeSlotsReady(tim, cfg) <==>
      !(1 <= n <= 4 && Bit(tim.iden, n) && cfg.edgeCallback[n - 1] == null)
  {
    OnlyBit(n);
  }

  /** Serving the update flag alone, with one record on the chain: clear the
      flag, then call the record with the capture value. */
  lemma OverflowTrace(v: DispatchView, rec: OvrHandlerRec)
    requires WellShaped(v) && v.chain == [rec]
    ensures Bit(Pow2(0), 0)
    ensures ServiceFrom(Pow2(0), 0, v) == [FlagClear(v.timer, BitMask(0)), OverflowCall(rec, v.capture)]
  {
    SingleFlag(0, v);
    assert OverflowCalls([rec], v.capture) == [OverflowCall(rec, v.capture)];
  }

  /** The counter overflows (the update flag alone is raised) and timCCxHandler
      serves it: the flag is cleared and the chain's one record is called with
      the capture value; a staged forced value is consumed. */
  method OverflowInterrupt(tim: Tmr, cfg: TimerConfig, rec: OvrHandlerRec) returns (trace: seq<Event>)
    requires cfg.Valid() && cfg.Chain() == [rec] && Bit(tim.iden, 0)
    modifies tim, cfg
    ensures cfg.Valid() && cfg.Chain() == [rec] && tim.iden == old(tim.iden)
    ensures tim.pr == old(tim.pr) && tim.cval == old(tim.cval)
    ensures cfg.forcedOverflowTimerValue == 0
    ensures trace == [FlagClear(tim.number, BitMask(0)),
      OverflowCall(rec, OverflowCapture(old(cfg.forcedOverflowTimerValue), old(tim.pr)))]
  {
    OnlyFlag(tim.iden, 0);
    tim.ists := Pow2(0);
    OneFlagReady(tim, cfg, 0);
    trace := ServeOverflow(tim, cfg, rec);
  }

  /** timCCxHandler with the update flag alone pending over a one-record
      chain. */
  method ServeOverflow(tim: Tmr, cfg: TimerConfig, rec: OvrHandlerRec) returns (trace: seq<Event>)
    requires cfg.Valid() && cfg.Chain() == [rec] && Pending(tim) == Pow2(0) && EdgeSlotsReady(tim, cfg)
    modifies tim, cfg
    ensures cfg.Valid() && cfg.Chain() == [rec] && tim.iden == old(tim.iden)
    ensures tim.pr == old(tim.pr) && tim.cval == old(tim.cval)
    ensures cfg.forcedOverflowTimerValue == 0
    ensures trace == [FlagClear(tim.number, BitMask(0)),
      OverflowCall(rec, OverflowCapture(old(cfg.forcedOverflowTimerValue), old(tim.pr)))]
  {
    OverflowTrace(ViewOf(tim, cfg, true), rec);
    trace := TimCCxHandler(tim, cfg);
  }

  /** TMR1 with one overflow record registered, the counter at cval and the
      period register at pr, after timerForceOverflow: cval + 1 is staged. */
  method ForcedTimer1(cval: uint32, pr: uint32) returns (tim: Tmr, cfg: TimerConfig, rec: OvrHandlerRec)
    requires cval < 0xFFFF_FFFF
    ensures fresh(tim) && fresh(cfg) && fresh(rec)
    ensures cfg.Valid() && cfg.Chain() == [rec] && Bit(tim.iden, 0)
    ensures tim.number == 1 && tim.pr == pr && tim.ovfswtr
    ensures cfg.forcedOverflowTimerValue == cval + 1
  {
    tim, cfg, rec := Timer1WithRecord();
    tim.cval, tim.pr := cval, pr;
    ghost var iden := tim.iden;
    ForceOverflowOn(tim, cfg);
    assert tim.iden == iden;
  }

  /** timerForceOverflow on TMR1 with one overflow record registered: the
      interrupt that follows delivers the saved counter cut to 16 bits, and the
      next one delivers the period register again. */
  method ForcedOverflowDelivery(cval: uint32, pr: uint32) returns (rec: OvrHandlerRec, first: seq<Event>, second: seq<Event>)
    requires cval < 0xFFFF_FFFF
    ensures first == [FlagClear(1, BitMask(0)), OverflowCall(rec, cval % 0x1_0000)]
    ensures second == [FlagClear(1, BitMask(0)), OverflowCall(rec, pr % 0x1_0000)]
  {
    var tim, cfg;
    tim, cfg, rec := ForcedTimer1(cval, pr);
    ForcedCapture(cval, pr);
    first := OverflowInterrupt(tim, cfg, rec);
    PlainCapture(pr);
    second := OverflowInterrupt(tim, cfg, rec);
  }

  /** Serving one capture/compare flag n in 1..4: clear the flag, then call the
      edge callback in slot n - 1 with register c<n>dt. */
  lemma EdgeTrace(v: DispatchView, n: nat)
    requires WellShaped(v) && v.edges && 1 <= n <= 4
    ensures ServiceFrom(Pow2(n), 0, v) == [FlagClear(v.timer, BitMask(n)), EdgeCall(v.edge[n - 1], v.captures[n - 1])]
  {
    SingleFlag(n, v);
  }

  /** A reset TMR1 entry after timerChConfigCallbacks(channel, edge, NULL): edge
      lands in slot channel >> 2, the channel's interrupt alone is enabled and
      the overflow chain stays empty. */
  method EdgeOnChannel(channel: uint16, edge: CCHandlerRec) returns (tim: Tmr, cfg: TimerConfig)
    requires 1 <= channel <= 4
    ensures fresh(tim) && fresh(cfg)
    ensures tim.number == 1 && tim.ists == 0 && cfg.Valid() && cfg.Chain() == []
    ensures cfg.edgeCallback == [null, null, null, null][LookupChannelIndex(channel) := edge]
    ensures forall k: nat :: Bit(tim.iden, k) <==> k == channel
  {
    tim := new Tmr(1, 0);
    cfg := new TimerConfig();
    cfg.ClearedValid();
    var setup := ConfigCallbacksOn(tim, cfg, channel, edge, null);
    NonNullOfNulls(cfg.Slots());
    forall k: nat ensures !Bit(0, k) {
      ZeroBit(k);
    }
  }

  /** Channel 2 through timerChConfigCallbacks: its callback goes to slot 0 while
      bit 2 is enabled, so once the C2 flag is raised the dispatcher would
      dereference the empty slot 1. */
  method Channel2Stranded(edge: CCHandlerRec) returns (tim: Tmr, cfg: TimerConfig)
    ensures fresh(tim) && fresh(cfg) && cfg.Valid()
    ensures cfg.edgeCallback[0] == edge && cfg.edgeCallback[1] == null
    ensures Bit(tim.iden, 2) && Bit(tim.ists, 2)
    ensures !EdgeSlotsReady(tim, cfg)
  {
    tim, cfg := EdgeOnChannel(2, edge);
    tim.ists := Pow2(2);
    OnlyBit(2);
    OneFlagReady(tim, cfg, 2);
  }

  /** Channel 1 through timerChConfigCallbacks, and a capture on it: the
      dispatcher clears the C1 flag and calls the callback with c1dt. */
  method Channel1Capture(edge: CCHandlerRec, c1: uint32) returns (trace: seq<Event>)
    ensures trace == [FlagClear(1, BitMask(1)), EdgeCall(edge, c1)]
  {
    var tim, cfg := EdgeOnChannel(1, edge);
    tim.c1dt := c1;
    OnlyFlag(tim.iden, 1);
    tim.ists := Pow2(1);
    OneFlagReady(tim, cfg, 1);
    ghost var v := ViewOf(tim, cfg, true);
    EdgeTrace(v, 1);
    trace := TimCCxHandler(tim, cfg);
  }
}
