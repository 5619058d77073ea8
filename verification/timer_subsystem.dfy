/// The driver's module state: the timer hardware table, the used timers' register
/// blocks, and the three tables timerConfig, timerChannelInfo and timerInfo, with
/// the operations that reset them, allocate channels, register callbacks, force
/// an overflow and enter the dispatcher from an interrupt vector.
module TimerSubsystems {

  import opened Bits
  import opened TimerIndex
  import opened TimerHelpers
  import opened TimerTypes
  import opened TimerConfigs
  import opened TimerDispatch

  /** timerInfo[timer].priority after timerChInit asks for irqPriority: a request
      numerically below the committed value is stored, truncated to a uint8;
      any other request leaves it. */
  function PriorityAfter(cur: uint8, irqPriority: int): (p: uint8)
    ensures 0 <= irqPriority < cur ==> p == irqPriority
    ensures irqPriority >= cur ==> p == cur
  {
    if irqPriority < cur then irqPriority % 0x100 else cur
  }

  /** The committed priority after a sequence of requests, oldest first. */
  function PriorityAfterAll(cur: uint8, requests: seq<int>): uint8
    decreases |requests|
  {
    if requests == [] then cur
    else PriorityAfterAll(PriorityAfter(cur, requests[0]), requests[1..])
  }

  /** Starting from cur, non-negative requests leave the least of cur and all of
      them: the result is at most each, and is one of them. */
  lemma {:induction false} PriorityIsMinimum(cur: uint8, requests: seq<int>)
    requires forall k :: 0 <= k < |requests| ==> 0 <= requests[k]
    ensures PriorityAfterAll(cur, requests) <= cur
    ensures forall k :: 0 <= k < |requests| ==> PriorityAfterAll(cur, requests) <= requests[k]
    ensures PriorityAfterAll(cur, requests) == cur || PriorityAfterAll(cur, requests) in requests
  {
    if requests != [] {
      var next := PriorityAfter(cur, requests[0]);
      var rest := requests[1..];
      PriorityIsMinimum(next, rest);
      forall k | 0 <= k < |requests|
        ensures PriorityAfterAll(cur, requests) <= requests[k]
      {
        if k > 0 {
          assert requests[k] == rest[k - 1];
        }
      }
      if PriorityAfterAll(next, rest) != next {
        assert PriorityAfterAll(next, rest) in rest;
      }
    }
  }

  /** After timerInit (255) the committed priority is min(255, every request). */
  lemma PriorityAfterInit(requests: seq<int>)
    requires forall k :: 0 <= k < |requests| ==> 0 <= requests[k]
    ensures PriorityAfterAll(255, requests) <= 255
    ensures forall k :: 0 <= k < |requests| ==> PriorityAfterAll(255, requests) <= requests[k]
    ensures PriorityAfterAll(255, requests) == 255 || PriorityAfterAll(255, requests) in requests
  {
    PriorityIsMinimum(255, requests);
  }

  /** irqPriority is an int, so a negative request passes the comparison and is
      stored truncated: -1 commits 255 whatever was committed before. */
  lemma NegativePriorityWraps(cur: uint8)
    requires cur > 0
    ensures PriorityAfter(cur, -1) == 255
  {
  }

  /** configTimeBase(tim, 0, 1), as timerChInit programs it: the longest period
      and the timer's input clock undivided. */
  lemma FreeRunning(clock: uint32)
    requires clock >= 1
    ensures ConfigTimeBase(0, clock, 1) == TimeBase(0xFFFF, clock - 1)
  {
  }

  class TimerSubsystem {
    /** TIMER_HARDWARE: the board's channel table. */
    const hardware: seq<TimerHardware>
    /** usedTimers: the register block of each used timer, in dense-index order. */
    const usedTimers: seq<Tmr>
    /** timerConfig */
    const configs: seq<TimerConfig>
    /** timerChannelInfo[].type */
    const channelInfo: array<ChannelType>
    /** timerInfo[].priority */
    const timerInfo: array<uint8>

    /** The fixed wiring of the tables: one entry per used timer in each timer
        table, one per hardware channel in the channel table, every channel
        numbered 1..4, and usedTimers[k] the register block of timer
        timerNumbers[k]. */
    predicate Wired()
    {
      && |usedTimers| == UsedTimerCount == |TimerNumbers|
      && |configs| == UsedTimerCount && timerInfo.Length == UsedTimerCount
      && channelInfo.Length == |hardware|
      && (forall k :: 0 <= k < |usedTimers| ==> usedTimers[k].number == TimerNumbers[k])
      && (forall a, b :: 0 <= a < b < |usedTimers| ==> usedTimers[a] != usedTimers[b])
      && (forall a, b :: 0 <= a < b < |configs| ==> configs[a] != configs[b])
      && (forall h :: 0 <= h < |hardware| ==> 1 <= hardware[h].channel <= 4)
    }

    /** Every timerConfig entry has its four slots of each kind and no record in
        two of them. */
    predicate Valid()
      reads configs
    {
      && Wired()
      && forall k :: 0 <= k < |configs| ==> configs[k].Shaped() && DistinctSlots(configs[k].Slots())
    }

    /** The dense timer slot hardware entry hw belongs to, as lookupTimerIndex
        finds it: below UsedTimerCount only for a timer the lookup knows. */
    function TimerOf(hw: nat): (t: uint8)
      requires hw < |hardware|
      ensures t < UsedTimerCount ==> t < |TimerNumbers| && TimerNumbers[t] == hardware[hw].tim
    {
      LookupTimerIndex(hardware[hw].tim)
    }

    /** The tables as the program image leaves them before timerInit: every byte
        zero, so every slot null, every channel TYPE_FREE and every priority 0.
        clocks[k] is timerClock of the k-th used timer. */
    constructor (table: seq<TimerHardware>, clocks: seq<uint32>)
      requires |clocks| == UsedTimerCount
      requires forall h :: 0 <= h < |table| ==> 1 <= table[h].channel <= 4
      ensures Valid() && hardware == table
      ensures forall k :: 0 <= k < |configs| ==> configs[k].Cleared()
      ensures forall k :: 0 <= k < |usedTimers| ==>
        usedTimers[k].clock == clocks[k] &&
        usedTimers[k].State() == TmrState(0, 0, 0, 0, 0, 0, 0, 0, 0, false, false)
      ensures forall h :: 0 <= h < channelInfo.Length ==> channelInfo[h] == TypeFree
      ensures forall k :: 0 <= k < timerInfo.Length ==> timerInfo[k] == 0
      ensures forall k :: 0 <= k < |usedTimers| ==> fresh(usedTimers[k]) && fresh(configs[k])
      ensures fresh(channelInfo) && fresh(timerInfo)
    {
      var tims, cfgs := NewTimers(clocks);
      hardware := table;
      usedTimers := tims;
      configs := cfgs;
      channelInfo := new ChannelType[|table|](_ => TypeFree);
      timerInfo := new uint8[UsedTimerCount](_ => 0);
      new;
      forall k | 0 <= k < |configs|
        ensures configs[k].Shaped() && DistinctSlots(configs[k].Slots())
      {
        configs[k].ClearedValid();
      }
    }

    /** timerInit: zero every timerConfig entry, mark every channel TYPE_FREE and
        set every timer's priority to (uint8)~0 = 255.  The caller-owned records
        are not touched. */
    method TimerInit()
      requires Wired()
      modifies configs, channelInfo, timerInfo
      ensures Valid()
      ensures forall k :: 0 <= k < |configs| ==> configs[k].Cleared() && configs[k].Valid()
      ensures forall h :: 0 <= h < channelInfo.Length ==> channelInfo[h] == TypeFree
      ensures forall k :: 0 <= k < timerInfo.Length ==> timerInfo[k] == 255
    {
      for k := 0 to |configs|
        modifies configs
        invariant forall j :: 0 <= j < k ==> configs[j].Cleared()
      {
        configs[k].Clear();
      }
      for h := 0 to channelInfo.Length
        modifies channelInfo
        invariant forall j :: 0 <= j < h ==> channelInfo[j] == TypeFree
      {
        channelInfo[h] := TypeFree;
      }
      for k := 0 to timerInfo.Length
        modifies timerInfo
        invariant forall j :: 0 <= j < k ==> timerInfo[j] == 255
      {
        timerInfo[k] := 255;
      }
      forall k | 0 <= k < |configs|
        ensures configs[k].Valid()
      {
        configs[k].ClearedValid();
      }
    }

    /** timerChInit for hardware entry hw: an entry past the table changes
        nothing; otherwise the channel is tagged, and then, if the lookup knows
        the timer and irqPriority is below its committed priority, the timer is
        started free-running, the interrupt is enabled at irqPriority and the
        priority is committed. */
    method ChInit(hw: nat, chType: ChannelType, irqPriority: int, irq: nat) returns (trace: seq<Event>)
      requires Wired()
      modifies channelInfo, timerInfo, usedTimers
      ensures hw >= |hardware| ==>
        channelInfo[..] == old(channelInfo[..]) && timerInfo[..] == old(timerInfo[..]) && trace == []
      ensures hw < |hardware| ==> channelInfo[..] == old(channelInfo[..])[hw := chType]
      ensures hw < |hardware| && TimerOf(hw) >= UsedTimerCount ==>
        timerInfo[..] == old(timerInfo[..]) && trace == []
      ensures hw < |hardware| && TimerOf(hw) < UsedTimerCount ==>
        timerInfo[..] == old(timerInfo[..])[TimerOf(hw) := PriorityAfter(old(timerInfo[TimerOf(hw)]), irqPriority)]
      ensures hw < |hardware| && TimerOf(hw) < UsedTimerCount && irqPriority < old(timerInfo[TimerOf(hw)]) ==>
        var tim := usedTimers[TimerOf(hw)];
        var base := ConfigTimeBase(0, tim.clock, 1);
        tim.State() == old(tim.State()).(pr := base.period, div := base.prescaler, counting := true) &&
        trace == [NvicEnable(irq, irqPriority)]
      ensures forall k :: 0 <= k < |usedTimers| ==>
        (hw < |hardware| && k == TimerOf(hw) && irqPriority < old(timerInfo[k])) ||
        usedTimers[k].State() == old(usedTimers[k].State())
      ensures hw < |hardware| && TimerOf(hw) < UsedTimerCount && irqPriority >= old(timerInfo[TimerOf(hw)]) ==>
        trace == []
    {
      trace := [];
      if hw >= channelInfo.Length {
        return;
      }
      channelInfo[hw] := chType;
      var timer := TimerOf(hw);
      if timer >= UsedTimerCount {
        return;
      }
      if irqPriority < timerInfo[timer] {
        var tim := usedTimers[timer];
        var base := ConfigTimeBase(0, tim.clock, 1);
        tim.BaseInit(base.period, base.prescaler);
        tim.CounterEnable();
        trace := [NvicEnable(irq, irqPriority)];
        timerInfo[timer] := irqPriority % 0x100;
      }
    }

    /** timerChConfigCallbacks for hardware entry hw: a timer the lookup does not
        know is a no-op; otherwise the callbacks are configured on its register
        block and timerConfig entry (ConfigCallbacksOn), and no other timer or
        entry's slots, head or forced value changes.  ovf must not already sit
        in another slot of the timer: the walk would then write ovf's next once
        per occurrence, the last write wins, and the records between the two
        occurrences drop out of the chain, which is then no longer the list of
        non-null slots. */
    method ChConfigCallbacks(hw: nat, edge: CCHandlerRec?, ovf: OvrHandlerRec?) returns (trace: seq<Event>)
      requires Valid() && hw < |hardware|
      requires TimerOf(hw) < UsedTimerCount && ovf != null ==>
        ovf !in configs[TimerOf(hw)].Slots()[..LookupChannelIndex(hardware[hw].channel) + 1] &&
        ovf !in configs[TimerOf(hw)].Slots()[LookupChannelIndex(hardware[hw].channel) + 2..]
      modifies usedTimers, configs, CallbackRecords(hw)`next, (if ovf == null then {} else {ovf})`next
      ensures Valid()
      ensures TimerOf(hw) >= UsedTimerCount ==> trace == [] && (ovf != null ==> ovf.next == old(ovf.next))
      ensures TimerOf(hw) < UsedTimerCount ==>
        Configured(usedTimers[TimerOf(hw)], configs[TimerOf(hw)], hardware[hw].channel, edge, ovf, trace)
      ensures forall k :: 0 <= k < |usedTimers| && k != TimerOf(hw) ==>
        usedTimers[k].State() == old(usedTimers[k].State())
      ensures forall k :: 0 <= k < |configs| && k != TimerOf(hw) ==> SlotsKept(configs[k])
      ensures TimerOf(hw) < UsedTimerCount ==>
        var prev := old(configs[TimerOf(hw)].overflowCallback[LookupChannelIndex(hardware[hw].channel)]);
        prev != null && prev != ovf ==> prev.next == old(prev.next)
    {
      var timer := TimerOf(hw);
      trace := [];
      if timer >= UsedTimerCount {
        return;
      }
      var tim, cfg := usedTimers[timer], configs[timer];
      assert forall k :: 0 <= k < |configs| && k != timer ==> configs[k] != cfg;
      assert forall k :: 0 <= k < |usedTimers| && k != timer ==> usedTimers[k] != tim;
      trace := ConfigCallbacksOn(tim, cfg, hardware[hw].channel, edge, ovf);
    }

    /** The records timer hw's chain holds, which rebuilding it may relink. */
    function CallbackRecords(hw: nat): set<OvrHandlerRec>
      requires Wired() && hw < |hardware|
      reads configs
    {
      if TimerOf(hw) < UsedTimerCount then configs[TimerOf(hw)].Records() else {}
    }

    /** timerConfigUpdateCallback for timer number tim: a timer the lookup does
        not know is a no-op; otherwise its update slot is set and its chain
        rebuilt (ConfigUpdateOn), and no other timer or entry's slots, head or
        forced value changes.  upd must not already sit in an overflow slot, for
        the reason given at ChConfigCallbacks. */
    method ConfigUpdateCallback(tim: int, upd: OvrHandlerRec?) returns (trace: seq<Event>)
      requires Valid()
      requires LookupTimerIndex(tim) < UsedTimerCount && upd != null ==>
        upd !in configs[LookupTimerIndex(tim)].overflowCallback
      modifies usedTimers, configs, UpdateRecords(tim)`next, (if upd == null then {} else {upd})`next
      ensures Valid()
      ensures LookupTimerIndex(tim) >= UsedTimerCount ==> trace == [] && (upd != null ==> upd.next == old(upd.next))
      ensures LookupTimerIndex(tim) < UsedTimerCount ==>
        UpdateConfigured(usedTimers[LookupTimerIndex(tim)], configs[LookupTimerIndex(tim)], upd, trace)
      ensures forall k :: 0 <= k < |usedTimers| && k != LookupTimerIndex(tim) ==>
        usedTimers[k].State() == old(usedTimers[k].State())
      ensures forall k :: 0 <= k < |configs| && k != LookupTimerIndex(tim) ==> SlotsKept(configs[k])
      ensures LookupTimerIndex(tim) < UsedTimerCount ==>
        var prev := old(configs[LookupTimerIndex(tim)].updateCallback);
        prev != null && prev != upd ==> prev.next == old(prev.next)
    {
      var timer := LookupTimerIndex(tim);
      trace := [];
      if timer >= UsedTimerCount {
        return;
      }
      var t, cfg := usedTimers[timer], configs[timer];
      assert forall k :: 0 <= k < |configs| && k != timer ==> configs[k] != cfg;
      assert forall k :: 0 <= k < |usedTimers| && k != timer ==> usedTimers[k] != t;
      trace := ConfigUpdateOn(t, cfg, upd);
      assert cfg.Shaped() && DistinctSlots(cfg.Slots());
      forall k | 0 <= k < |configs| && k != timer
        ensures configs[k].Shaped() && DistinctSlots(configs[k].Slots())
      {
        assert configs[k].Slots() == old(configs[k].Slots());
      }
    }

    /** The records timer tim's chain holds. */
    function UpdateRecords(tim: int): set<OvrHandlerRec>
      requires Wired()
      reads configs
    {
      if LookupTimerIndex(tim) < UsedTimerCount then configs[LookupTimerIndex(tim)].Records() else {}
    }

    /** timerForceOverflow for timer number tim: stage cval + 1 and raise the
        software overflow trigger.  The source indexes timerConfig with the
        lookup result unchecked, so the timer must be one the lookup knows. */
    method ForceOverflow(tim: int)
      requires Valid() && LookupTimerIndex(tim) < UsedTimerCount
      modifies usedTimers[LookupTimerIndex(tim)], {configs[LookupTimerIndex(tim)]}`forcedOverflowTimerValue
      ensures Valid()
      ensures var t := usedTimers[LookupTimerIndex(tim)];
        && configs[LookupTimerIndex(tim)].forcedOverflowTimerValue == ForcedValue(t.cval)
        && t.State() == old(t.State()).(ovfswtr := true)
    {
      var timer := LookupTimerIndex(tim);
      ForceOverflowOn(usedTimers[timer], configs[timer]);
    }

    /** The vector _TIM_IRQ_HANDLER(name, i) defines: timCCxHandler on TMRi and
        timerConfig[TIMER_INDEX(i)].  TIMER_INDEX, unlike the lookup, covers
        every used timer, TMR20 included. */
    method IrqHandler(i: nat) returns (trace: seq<Event>)
      requires Valid() && i < 32 && Bit(UsedTimers, i)
      requires configs[TimerIndexOf(i)].Valid()
      requires EdgeSlotsReady(usedTimers[TimerIndexOf(i)], configs[TimerIndexOf(i)])
      modifies usedTimers[TimerIndexOf(i)], configs[TimerIndexOf(i)]
      ensures Valid() && usedTimers[TimerIndexOf(i)].number == i
      ensures Served(usedTimers[TimerIndexOf(i)], configs[TimerIndexOf(i)], true, trace)
      ensures configs[TimerIndexOf(i)].Valid()
    {
      var x := TimerIndexOf(i);
      trace := TimCCxHandler(usedTimers[x], configs[x]);
    }

    /** The vector _TIM_IRQ_HANDLER_UPDATE_ONLY(name, i): timUpdateHandler on TMRi. */
    method IrqHandlerUpdateOnly(i: nat) returns (trace: seq<Event>)
      requires Valid() && i < 32 && Bit(UsedTimers, i)
      requires configs[TimerIndexOf(i)].Valid()
      modifies usedTimers[TimerIndexOf(i)], configs[TimerIndexOf(i)]
      ensures Valid() && usedTimers[TimerIndexOf(i)].number == i
      ensures Served(usedTimers[TimerIndexOf(i)], configs[TimerIndexOf(i)], false, trace)
      ensures configs[TimerIndexOf(i)].Valid()
      ensures forall e :: e in trace ==> !e.EdgeCall?
    {
      var x := TimerIndexOf(i);
      trace := TimUpdateHandler(usedTimers[x], configs[x]);
    }

    /** The shared vector _TIM_IRQ_HANDLER2(name, i, j): timCCxHandler on TMRi,
        then on TMRj, each with its own timer's state as the pass finds it.
        first holds the events of TMRi's pass and second those of TMRj's, which
        come after them; each timer is served as IrqHandler serves it. */
    method IrqHandler2(i: nat, j: nat) returns (first: seq<Event>, second: seq<Event>)
      requires Valid() && i < 32 && j < 32 && Bit(UsedTimers, i) && Bit(UsedTimers, j) && i != j
      requires configs[TimerIndexOf(i)].Valid() && configs[TimerIndexOf(j)].Valid()
      requires EdgeSlotsReady(usedTimers[TimerIndexOf(i)], configs[TimerIndexOf(i)])
      requires EdgeSlotsReady(usedTimers[TimerIndexOf(j)], configs[TimerIndexOf(j)])
      modifies usedTimers[TimerIndexOf(i)], configs[TimerIndexOf(i)]
      modifies usedTimers[TimerIndexOf(j)], configs[TimerIndexOf(j)]
      ensures Valid()
      ensures usedTimers[TimerIndexOf(i)].number == i && usedTimers[TimerIndexOf(j)].number == j
      ensures Served(usedTimers[TimerIndexOf(i)], configs[TimerIndexOf(i)], true, first)
      ensures Served(usedTimers[TimerIndexOf(j)], configs[TimerIndexOf(j)], true, second)
      ensures configs[TimerIndexOf(i)].Valid() && configs[TimerIndexOf(j)].Valid()
    {
      var x := TimerIndexOf(i);
      var y := TimerIndexOf(j);
      assert x != y;
      first, second := ServeTwo(usedTimers[x], configs[x], usedTimers[y], configs[y]);
    }
  }

  /** The body of the shared vector: timCCxHandler on the first timer, then on
      the second, two distinct register blocks and entries. */
  method ServeTwo(tx: Tmr, cx: TimerConfig, ty: Tmr, cy: TimerConfig) returns (first: seq<Event>, second: seq<Event>)
    requires tx != ty && cx != cy && cx.Valid() && cy.Valid()
    requires EdgeSlotsReady(tx, cx) && EdgeSlotsReady(ty, cy)
    modifies tx, cx, ty, cy
    ensures Served(tx, cx, true, first) && Served(ty, cy, true, second)
    ensures cx.Valid() && cy.Valid()
  {
    ghost var chain := cy.Chain();
    assert ChainIs(cy.overflowCallbackActive, chain);
    first := TimCCxHandler(tx, cx);
    assert forall r :: r in chain ==> r.next == old(r.next);
    label Between:
    ghost var done := cx.Chain();
    assert ChainIs(cx.overflowCallbackActive, done);
    second := TimCCxHandler(ty, cy);
    assert unchanged@Between(tx, cx);
    assert forall r :: r in done ==> r.next == old@Between(r.next);
  }

  /** The body of timerForceOverflow: stage cval + 1 (unsigned 32-bit) and
      raise the software overflow trigger; nothing else changes. */
  method ForceOverflowOn(tim: Tmr, cfg: TimerConfig)
    modifies tim, cfg`forcedOverflowTimerValue
    ensures cfg.forcedOverflowTimerValue == ForcedValue(tim.cval)
    ensures tim.State() == old(tim.State()).(ovfswtr := true)
    ensures cfg.Chain() == old(cfg.Chain()) && (old(cfg.Valid()) ==> cfg.Valid())
  {
    ghost var chain := cfg.Chain();
    forall r | r in chain
      ensures r in cfg.Slots()
    {
      NonNullMember(cfg.Slots(), r);
    }
    label Start:
    cfg.forcedOverflowTimerValue := ForcedValue(tim.cval);
    tim.TriggerOverflow();
    assert forall r :: r in chain ==> r.next == old@Start(r.next);
  }

  /** The outcome of timerConfigUpdateCallback on a known timer: the update slot
      holds upd, the other slots and the forced value are as before, the chain
      is rebuilt over the slots, and only the enable register's overflow bit
      changes, to whether the chain is non-empty. */
  twostate predicate UpdateConfigured(tim: Tmr, cfg: TimerConfig, upd: OvrHandlerRec?, new trace: seq<Event>)
    reads tim, cfg, cfg.Records()
  {
    && cfg.updateCallback == upd
    && cfg.edgeCallback == old(cfg.edgeCallback) && cfg.overflowCallback == old(cfg.overflowCallback)
    && cfg.forcedOverflowTimerValue == old(cfg.forcedOverflowTimerValue)
    && cfg.Valid()
    && tim.State() == old(tim.State()).(iden := EnableWrite(old(tim.iden), Pow2(OvfBit), cfg.Chain() != []))
    && trace == [IrqEnable(tim.number, Pow2(OvfBit), cfg.Chain() != [])]
  }

  /** The body of timerConfigUpdateCallback once the timer is known. */
  method ConfigUpdateOn(tim: Tmr, cfg: TimerConfig, upd: OvrHandlerRec?) returns (trace: seq<Event>)
    requires cfg.Shaped() && DistinctSlots(cfg.Slots())
    requires upd != null ==> upd !in cfg.overflowCallback
    modifies tim, cfg, cfg.Records()`next, (if upd == null then {} else {upd})`next
    ensures UpdateConfigured(tim, cfg, upd, trace)
    ensures var prev := old(cfg.updateCallback); prev != null && prev != upd ==> prev.next == old(prev.next)
  {
    ghost var prev := cfg.updateCallback;
    label Slots:
    cfg.updateCallback := upd;
    assert old@Slots(cfg.Slots())[1..] == cfg.overflowCallback;
    SlotWrite(old@Slots(cfg.Slots()), cfg.Slots(), 0, upd);
    if prev != null && prev != upd {
      SlotReplaced(old@Slots(cfg.Slots()), 0, upd);
      assert prev !in cfg.Records();
    }
    trace := cfg.UpdateOverflow(tim);
  }

  /** Fresh register blocks for the used timers, in dense-index order, each
      holding the reset state, and one zero-filled timerConfig entry per timer. */
  method NewTimers(clocks: seq<uint32>) returns (tims: seq<Tmr>, cfgs: seq<TimerConfig>)
    requires |clocks| == |TimerNumbers|
    ensures |tims| == |cfgs| == |clocks|
    ensures forall k :: 0 <= k < |tims| ==> tims[k].number == TimerNumbers[k] && tims[k].clock == clocks[k]
    ensures forall k :: 0 <= k < |tims| ==> tims[k].State() == TmrState(0, 0, 0, 0, 0, 0, 0, 0, 0, false, false)
    ensures forall k :: 0 <= k < |cfgs| ==> cfgs[k].Cleared()
    ensures forall a, b :: 0 <= a < b < |tims| ==> tims[a] != tims[b] && cfgs[a] != cfgs[b]
    ensures forall k :: 0 <= k < |tims| ==> fresh(tims[k]) && fresh(cfgs[k])
  {
    tims, cfgs := [], [];
    for k := 0 to |clocks|
      invariant |tims| == |cfgs| == k
      invariant forall j :: 0 <= j < k ==> tims[j].number == TimerNumbers[j] && tims[j].clock == clocks[j]
      invariant forall j :: 0 <= j < k ==> tims[j].State() == TmrState(0, 0, 0, 0, 0, 0, 0, 0, 0, false, false)
      invariant forall j :: 0 <= j < k ==> cfgs[j].Cleared()
      invariant forall a, b :: 0 <= a < b < k ==> tims[a] != tims[b] && cfgs[a] != cfgs[b]
      invariant forall j :: 0 <= j < k ==> fresh(tims[j]) && fresh(cfgs[j])
    {
      var t := new Tmr(TimerNumbers[k], clocks[k]);
      var c := new TimerConfig();
      tims := tims + [t];
      cfgs := cfgs + [c];
    }
  }

  /** A config entry whose slots, chain head and forced value did not change. */
  twostate predicate SlotsKept(cfg: TimerConfig)
    reads cfg
  {
    && cfg.updateCallback == old(cfg.updateCallback) && cfg.edgeCallback == old(cfg.edgeCallback)
    && cfg.overflowCallback == old(cfg.overflowCallback)
    && cfg.overflowCallbackActive == old(cfg.overflowCallbackActive)
    && cfg.forcedOverflowTimerValue == old(cfg.forcedOverflowTimerValue)
  }

  /** The outcome of timerChConfigCallbacks on a channel of a known timer: slot
      channel >> 2 of both kinds holds the new callbacks, the chain is rebuilt
      over the slots, and the enable register has the channel's capture/compare
      bit set exactly when edge is non-null and the overflow bit set exactly
      when the chain is non-empty, every other bit and register as before; the
      register writes come in the source's order. */
  twostate predicate Configured(tim: Tmr, cfg: TimerConfig, channel: uint16, edge: CCHandlerRec?,
                                ovf: OvrHandlerRec?, new trace: seq<Event>)
    requires 1 <= channel <= 4 && old(cfg.Shaped())
    reads tim, cfg, cfg.Records()
  {
    var index := LookupChannelIndex(channel);
    var mask := TimItCcx(channel);
    && cfg.edgeCallback == old(cfg.edgeCallback)[index := edge]
    && cfg.overflowCallback == old(cfg.overflowCallback)[index := ovf]
    && cfg.updateCallback == old(cfg.updateCallback)
    && cfg.forcedOverflowTimerValue == old(cfg.forcedOverflowTimerValue)
    && cfg.Valid()
    && tim.State() == old(tim.State()).(iden := tim.iden)
    && (forall k: nat :: Bit(tim.iden, k) ==
          if k == channel then edge != null
          else if k == OvfBit then cfg.Chain() != []
          else Bit(old(tim.iden), k))
    && trace ==
         (if edge == null then [IrqEnable(tim.number, mask, false)] else [])
         + [CallbackSlotsWrite(tim.number, index)]
         + (if edge != null then [IrqEnable(tim.number, mask, true)] else [])
         + [IrqEnable(tim.number, Pow2(OvfBit), cfg.Chain() != [])]
  }

  /** The body of timerChConfigCallbacks once the timer is known: a null edge
      callback disables the channel's capture/compare interrupt before the slots
      are written, a non-null one enables it after; both slots written are
      lookupChannelIndex(channel) = channel >> 2; then the overflow chain is
      rebuilt. */
  method ConfigCallbacksOn(tim: Tmr, cfg: TimerConfig, channel: uint16, edge: CCHandlerRec?,
                           ovf: OvrHandlerRec?) returns (trace: seq<Event>)
    requires 1 <= channel <= 4 && cfg.Shaped() && DistinctSlots(cfg.Slots())
    requires ovf != null ==>
      ovf !in cfg.Slots()[..LookupChannelIndex(channel) + 1] &&
      ovf !in cfg.Slots()[LookupChannelIndex(channel) + 2..]
    modifies tim, cfg, cfg.Records()`next, (if ovf == null then {} else {ovf})`next
    ensures Configured(tim, cfg, channel, edge, ovf, trace)
    ensures var prev := old(cfg.overflowCallback[LookupChannelIndex(channel)]);
      prev != null && prev != ovf ==> prev.next == old(prev.next)
  {
    var index := LookupChannelIndex(channel);
    var mask := TimItCcx(channel);
    ghost var iden0 := tim.iden;
    trace := [];
    if edge == null {
      tim.InterruptEnable(mask, false);
      trace := [IrqEnable(tim.number, mask, false)];
    }
    WriteSlots(cfg, index, edge, ovf);
    trace := trace + [CallbackSlotsWrite(tim.number, index)];
    if edge != null {
      tim.InterruptEnable(mask, true);
      trace := trace + [IrqEnable(tim.number, mask, true)];
    }
    ghost var iden1 := tim.iden;
    assert iden1 == EnableWrite(iden0, mask, edge != null);
    var rebuilt := cfg.UpdateOverflow(tim);
    trace := trace + rebuilt;
    EnableBits(iden0, iden1, tim.iden, channel, edge != null, cfg.Chain() != []);
  }

  /** The slot writes of timerChConfigCallbacks: edge and ovf into slot index
      of their kinds.  The rebuilt chain can then hold only records it held
      before and ovf, and not the record ovf displaced. */
  method WriteSlots(cfg: TimerConfig, index: nat, edge: CCHandlerRec?, ovf: OvrHandlerRec?)
    requires index < ChannelsPerTimer && cfg.Shaped() && DistinctSlots(cfg.Slots())
    requires ovf != null ==> ovf !in cfg.Slots()[..index + 1] && ovf !in cfg.Slots()[index + 2..]
    modifies cfg`edgeCallback, cfg`overflowCallback
    ensures cfg.edgeCallback == old(cfg.edgeCallback)[index := edge]
    ensures cfg.overflowCallback == old(cfg.overflowCallback)[index := ovf]
    ensures cfg.Shaped() && DistinctSlots(cfg.Slots())
    ensures forall x :: x in cfg.Records() ==> x in old(cfg.Records()) || x == ovf
    ensures var prev := old(cfg.overflowCallback[index]); prev != null && prev != ovf ==> prev !in cfg.Records()
  {
    ghost var before := cfg.Slots();
    cfg.edgeCallback := cfg.edgeCallback[index := edge];
    cfg.overflowCallback := cfg.overflowCallback[index := ovf];
    assert cfg.Slots() == before[index + 1 := ovf];
    SlotWrite(before, cfg.Slots(), index + 1, ovf);
    if before[index + 1] != null && before[index + 1] != ovf {
      SlotReplaced(before, index + 1, ovf);
    }
  }

  /** The enable register after the channel write and then the overflow write. */
  lemma EnableBits(iden0: uint32, iden1: uint32, iden2: uint32, channel: uint16, edgeOn: bool, ovfOn: bool)
    requires 1 <= channel <= 4
    requires iden1 == EnableWrite(iden0, TimItCcx(channel), edgeOn)
    requires iden2 == EnableWrite(iden1, Pow2(OvfBit), ovfOn)
    ensures forall k: nat :: Bit(iden2, k) == (if k == channel then edgeOn else if k == OvfBit then ovfOn else Bit(iden0, k))
  {
    OnlyBit(OvfBit);
  }

  /** Writing r into slot i keeps the slots free of duplicates when r is in no
      other slot, and registers no record but the old ones and r. */
  /** The record a slot write replaces is in no slot afterwards, so the
      rebuilt chain does not hold it. */
  lemma SlotReplaced(before: seq<OvrHandlerRec?>, i: nat, r: OvrHandlerRec?)
    requires DistinctSlots(before) && i < |before| && before[i] != null && before[i] != r
    ensures before[i] !in NonNull(before[i := r])
  {
    var after := before[i := r];
    NonNullMember(after, before[i]);
    forall j | 0 <= j < |after|
      ensures after[j] != before[i]
    {
      if j < i && before[j] != null {
        assert before[j] != before[i];
      }
    }
  }

  lemma SlotWrite(before: seq<OvrHandlerRec?>, after: seq<OvrHandlerRec?>, i: nat, r: OvrHandlerRec?)
    requires DistinctSlots(before) && i < |before| && after == before[i := r]
    requires r != null ==> r !in before[..i] && r !in before[i + 1..]
    ensures DistinctSlots(after)
    ensures forall x :: x in NonNull(after) ==> x in NonNull(before) || x == r
  {
    forall a, b | 0 <= a < b < |after| && after[a] != null
      ensures after[a] != after[b]
    {
      if a == i {
        assert after[b] == before[b] && before[b] in before[i + 1..];
      } else if b == i {
        assert after[a] == before[a] && before[a] in before[..i];
      }
    }
    forall x | x in NonNull(after)
      ensures x in NonNull(before) || x == r
    {
      NonNullMember(after, x);
      NonNullMember(before, x);
      var j :| 0 <= j < |after| && after[j] == x;
      if j != i {
        assert before[j] == x;
      }
    }
  }

}
