# AT32 timer driver: a verified Dafny model

This project models the timer core of an AT32 flight-controller port, `src/main/drivers/timer_atbsp.c`. That core does the following:

- maps sparse hardware timer numbers to dense table slots and back (`TIMER_INDEX`, `lookupTimerIndex`, `timerNumbers`);
- keeps three tables: `timerConfig`, `timerChannelInfo` and `timerInfo`;
- claims channels and escalates a timer's interrupt priority (`timerChInit`);
- registers edge and overflow callbacks, and threads the caller-owned overflow records into one null-terminated chain (`timerChConfigCallbacks`, `timerConfigUpdateCallback`, `timerChConfig_UpdateOverflow`);
- stages a forced overflow (`timerForceOverflow`);
- serves interrupts with a bit-scan loop, highest flag first (`timCCxHandler`, `timUpdateHandler` and the IRQ handler macros);
- provides a few pure helpers: the input-filter table search, the interrupt and DMA masks, and the prescaler and period arithmetic.

## How the model is built

Modules follow the structure of the driver:

- `Bits` (bits.dfy) holds bit arithmetic on naturals: `Bit`, `And`, `Or`, shifts and `Clz`. The C unsigned types are the subset types `uint8`, `uint16` and `uint32`, and every truncation is written out with `%`.
- `TimerIndex` (timer_index.dfy) holds the dense timer index, both for any well-formed mask and for the fixed target mask.
- `TimerHelpers` (timer_helpers.dfy) holds `getFilter`, `TIM_IT_CCx`, `TIM_CH_TO_SELCHANNEL`, `timerDmaSource` and the time-base and prescaler arithmetic.
- `TimerTypes` (timer_types.dfy) holds the following:
  - the two callback record types `CCHandlerRec` and `OvrHandlerRec`, as classes, because `next` is rewritten in place;
  - the register block `Tmr`, a class whose fields are `ists`, `iden`, `pr`, `div`, `cval`, `c1dt`..`c4dt`, the counter enable and `ovfswtr`;
  - the `Event` trace.
- `TimerConfigs` (timer_config.dfy) holds `timerConfig_t` as a class and the pointer-to-pointer chain builder.
- `TimerDispatch` (timer_dispatch.dfy) holds the interrupt dispatcher. The dispatcher is a `while` loop proved against a reference function, `ServiceFrom`. `ServiceFrom` lists the effects of serving the pending bits from bit 31 down to bit 0.
- `TimerSubsystems` (timer_subsystem.dfy) holds the driver's global tables as one class, `TimerSubsystem`, together with the public entry points.
- `TimerScenarios` (scenarios.dfy) holds end-to-end runs on TMR1:
  - a forced overflow delivered once, and then the period register again;
  - the channel-2 slot hazard, with channel 1 for contrast.

Register writes, interrupt-line enables and callback invocations are returned as a trace of `Event` values. Ordering properties are stated over that trace: a null edge callback disables its interrupt before the slots are written, flags are cleared highest first, and chain records are called in order.

`USED_TIMERS` comes from target headers, which are not part of this model. The index lemmas are proved for every well-formed mask, meaning bits only at timer numbers 1..17 and 20. The tables use one fixed target, `UsedTimers = 0x10053E`, which is timers {1, 2, 3, 4, 5, 8, 10, 20}. It is connected to that target by `TargetMask` and `TargetFacts`.

### Behaviour of the code worth knowing

- **Channel slots.** The slot index is `channel >> 2`, while channels are numbered 1..4. So channels 1-3 share slot 0 and channel 4 uses slot 1, but the dispatcher reads slot `n - 1` for flag C`n`. "An enabled compare interrupt has a populated dispatch slot" therefore holds for channel 1 only. `Channel2Stranded` exhibits the failure and `Channel1Capture` the working case.
- **Channel type tagged before the timer check.** `timerChInit` tags the channel type before it checks the timer. A channel whose timer is not in the table is still tagged.
- **Update-only handler.** The update-only handler clears every pending flag, channel flags included, but calls only the overflow chain.
- **Forced overflow value.** A forced overflow delivers the counter cut to 16 bits (`capture` is `uint16_t`), not the full counter value. If `cval` is `0xFFFFFFFF`, the staged `cval + 1` wraps to 0 and the period register is delivered instead (`ForcedCapture`).
- **Chain head written first.** The chain builder writes the head (`overflowCallbackActive`) first and the `next` links after it, not the head last. The model treats the critical section as atomic.
- **Timer 20.** `lookupTimerIndex` has cases for timers 1..17 only. Timer 20 is listed in `usedTimers` and `timerNumbers`, but looking it up yields 254 (`Timer20Unreachable`).

## Model

| member | source | states |
|---|---|---|
| Bits.Clz | src/main/drivers/timer_atbsp.c:614 | `__builtin_clz` of a non-zero word: bit 31 - c is set and every higher bit is clear |
| Bits.And32 | src/main/drivers/timer_atbsp.c:609 | `ists & iden` has exactly the bits set in both operands |
| TimerIndex.IndexIsCount | src/main/drivers/timer_atbsp.c:91 | TIMER_INDEX(i), the popcount of `(TIM_N(i) - 1) & mask`, equals the number of mask bits below i |
| TimerIndex.IndexStrict | src/main/drivers/timer_atbsp.c:91 | the dense index strictly increases with the timer number over the used timers |
| TimerIndex.IndexBelowCount | src/main/drivers/timer_atbsp.c:91 | the index of a used timer is below USED_TIMER_COUNT |
| TimerIndex.NumbersLength | src/main/drivers/timer_atbsp.c:218-277 | timerNumbers has one entry per used timer, so its length is the bit count |
| TimerIndex.NumbersAscending | src/main/drivers/timer_atbsp.c:218-277 | timerNumbers lists the timers in strictly ascending order |
| TimerIndex.CountOfNumber | src/main/drivers/timer_atbsp.c:218-277 | entry k of the number table is a used, listable timer with exactly k used timers below it |
| TimerIndex.IndexRoundTrip | src/main/drivers/timer_atbsp.c:91 | for every used timer i, `timerNumbers[TIMER_INDEX(i)] == i` |
| TimerIndex.NumberRoundTrip | src/main/drivers/timer_atbsp.c:218-277 | for every slot k, `TIMER_INDEX(timerNumbers[k]) == k`: the two maps are inverse bijections |
| TimerIndex.MaskBit | src/main/drivers/timer_atbsp.c:43 | the mask ORed from TIM_N of a list has bit k exactly when k is in the list |
| TimerIndex.MaskCount | src/main/drivers/timer_atbsp.c:53 | BITCOUNT of the mask of a list of distinct timers is the list's length |
| TimerIndex.TargetMask | src/main/drivers/timer_atbsp.c:158-216 | the target mask is the OR of TIM_N over timers 1, 2, 3, 4, 5, 8, 10, 20 |
| TimerIndex.TargetFacts | src/main/drivers/timer_atbsp.c:218-277 | the target mask is well formed, its count is 8 and its number table is [1, 2, 3, 4, 5, 8, 10, 20] |
| TimerIndex.TimerIndexOf | src/main/drivers/timer_atbsp.c:91 | a used timer's index is a slot whose number-table entry is that timer |
| TimerIndex.LookupTimerIndex | src/main/drivers/timer_atbsp.c:93-156 | in range exactly for used timers 1..17, where timerNumbers maps the slot back to the timer; otherwise 254 (`~1` as a byte) |
| TimerIndex.TimerGetNumberByIndex | src/main/drivers/timer_atbsp.c:279-286 | out-of-range index gives 0; an in-range index gives a used timer whose index is that slot |
| TimerIndex.TimerGetTimNumber | src/main/drivers/timer_atbsp.c:288-293 | the timer's own number when the lookup succeeds, otherwise 0 |
| TimerIndex.Timer20Unreachable | src/main/drivers/timer_atbsp.c:273-275 | timer 20 is used and has a table slot, yet lookupTimerIndex gives 254 and timerGetTIMNumber gives 0 |
| TimerIndex.LookupChannelIndex | src/main/drivers/timer_atbsp.c:295-298 | `channel >> 2`: channels 1-3 give slot 0, channel 4 gives slot 1, and only channel 1 gets slot channel - 1 |
| TimerHelpers.FilterTableAscending | src/main/drivers/timer_atbsp.c:512-519 | ftab is strictly ascending |
| TimerHelpers.FilterMonotone | src/main/drivers/timer_atbsp.c:510-525 | the filter value never decreases as the tick count grows |
| TimerHelpers.GetFilter | src/main/drivers/timer_atbsp.c:510-525 | the table search returns the number of entries ftab[1..15] at or below ticks, at most 15, bracketed by ftab[f] <= ticks < ftab[f + 1] |
| TimerHelpers.TimItCcx | src/main/drivers/timer_atbsp.c:61 | TIM_IT_CCx(ch) is the single bit ch (TMR_C1_INT is bit 1) |
| TimerHelpers.TimChToSelChannel | src/main/drivers/timer_atbsp.c:63 | channels 1..4 map to selectors 0, 2, 4, 6; the map is even and inverts by s / 2 + 1 |
| TimerHelpers.TimerDmaSource | src/main/drivers/timer_atbsp.c:913-926 | channels 1..4 give the single DMA request bit channel + 8; any other channel gives 0 |
| TimerHelpers.DmaSourceValues | src/main/drivers/timer_atbsp.c:913-926 | the four DMA request masks are 0x200, 0x400, 0x800, 0x1000 |
| TimerHelpers.ConfigTimeBase | src/main/drivers/timer_atbsp.c:333 | the period register is `(period - 1) & 0xFFFF` (0 becomes 0xFFFF); the prescaler is clock / hz - 1, wrapping to 0xFFFFFFFF when hz exceeds the clock |
| TimerHelpers.PeriodByPrescaler | src/main/drivers/timer_atbsp.c:933-936 | when no truncation happens, the period is the largest p with p * hz at most the prescaled clock |
| TimerHelpers.PrescalerByDesiredHertz | src/main/drivers/timer_atbsp.c:938-945 | a rate above the clock gives 0 |
| TimerHelpers.PrescalerOfQuotient | src/main/drivers/timer_atbsp.c:944 | while the rounded quotient fits in 16 bits, prescaler + 1 is the integer nearest to clock / hz: (r + 1) * hz <= clock + hz / 2 < (r + 2) * hz |
| TimerHelpers.PrescalerNoUnderflow | src/main/drivers/timer_atbsp.c:938-945 | with 0 < hz <= clock the rounded quotient is at least 1, so the subtraction does not wrap while the quotient fits in 16 bits (the result is then quotient - 1); a quotient of exactly 0x10000 gives 0xFFFF |
| TimerHelpers.PrescalerExact | src/main/drivers/timer_atbsp.c:938-945 | an exact divisor clock = n * hz yields prescaler n - 1 |
| TimerHelpers.PrescalerByDesiredMhz | src/main/drivers/timer_atbsp.c:928-931 | a rate in MHz above the clock gives 0 |
| TimerHelpers.PrescalerMhzExact | src/main/drivers/timer_atbsp.c:928-931 | an exact MHz divisor yields prescaler n - 1 |
| TimerTypes.CCHandlerRec.Init | src/main/drivers/timer_atbsp.c:383-386 | timerChCCHandlerInit sets the callback |
| TimerTypes.OvrHandlerRec.Init | src/main/drivers/timer_atbsp.c:388-392 | timerChOvrHandlerInit sets the callback and unlinks the record |
| TimerTypes.EnableWrite | src/main/drivers/timer_atbsp.c:413 | tmr_interrupt_enable sets or clears exactly the mask's bits and keeps the rest |
| TimerTypes.FlagWrite | src/main/drivers/timer_atbsp.c:616 | writing a mask to the write-0-to-clear status register keeps only flags that are set in both |
| TimerTypes.Tmr.InterruptEnable | src/main/drivers/timer_atbsp.c:413 | only the enable register changes, as EnableWrite |
| TimerTypes.Tmr.WriteFlags | src/main/drivers/timer_atbsp.c:616 | only the status register changes, as FlagWrite |
| TimerTypes.Tmr.BaseInit | src/main/drivers/timer_atbsp.c:333 | tmr_base_init writes the period and division registers only |
| TimerTypes.Tmr.CounterEnable | src/main/drivers/timer_atbsp.c:375 | tmr_counter_enable starts the counter only |
| TimerTypes.Tmr.TriggerOverflow | src/main/drivers/timer_atbsp.c:874 | raises the software overflow trigger only |
| TimerConfigs.NonNullMember | src/main/drivers/timer_atbsp.c:400-409 | a record is on the intended chain exactly when it occupies a slot |
| TimerConfigs.NonNullDistinct | src/main/drivers/timer_atbsp.c:400-409 | distinct slots give a chain without duplicates |
| TimerConfigs.TimerConfig.Clear | src/main/drivers/timer_atbsp.c:808 | the memset: every pointer null, forced value 0 |
| TimerConfigs.TimerConfig.ClearedValid | src/main/drivers/timer_atbsp.c:808 | a zeroed entry satisfies the chain invariant with an empty chain |
| TimerConfigs.TimerConfig.Link | src/main/drivers/timer_atbsp.c:401-410 | `*chain = r` extends the partial chain by a new record, or terminates it with null |
| TimerConfigs.TimerConfig.LinkSlot | src/main/drivers/timer_atbsp.c:401-409 | one slot of the walk links the record when set and moves the tail to it |
| TimerConfigs.TimerConfig.BuildChain | src/main/drivers/timer_atbsp.c:397-411 | walking next from the head visits updateCallback, then the non-null overflowCallback[0..3] in order, once each, ending at null; the slots, edge callbacks and forced value are unchanged |
| TimerConfigs.TimerConfig.UpdateOverflow | src/main/drivers/timer_atbsp.c:396-414 | as BuildChain, then the overflow interrupt enable is set exactly when the chain is non-empty, with no other register touched |
| TimerDispatch.ForcedValue | src/main/drivers/timer_atbsp.c:871 | `cval + 1` in 32 bits; without wrap-around it is cval + 1 |
| TimerDispatch.ForcedCapture | src/main/drivers/timer_atbsp.c:619-626 | a staged `cval + 1` delivers cval mod 2^16, and the period register when cval + 1 wrapped to 0 |
| TimerDispatch.PlainCapture | src/main/drivers/timer_atbsp.c:624-626 | nothing staged delivers pr mod 2^16 |
| TimerDispatch.BitMask | src/main/drivers/timer_atbsp.c:615 | the mask for bit b has every bit but b |
| TimerDispatch.TopMask | src/main/drivers/timer_atbsp.c:615 | `~(0x80000000 >> bit)` is the mask for bit 31 - bit |
| TimerDispatch.OverflowCalls | src/main/drivers/timer_atbsp.c:628-632 | every chain record is called once, in chain order, with the same capture |
| TimerDispatch.PendingBitsSpec | src/main/drivers/timer_atbsp.c:611-617 | every bit pending at entry is served exactly once, in strictly descending order |
| TimerDispatch.ServiceClears | src/main/drivers/timer_atbsp.c:616 | the trace's flag clears are the masks of the pending bits, highest first |
| TimerDispatch.HighBitsSilent | src/main/drivers/timer_atbsp.c:618-647 | bits 5..31 have no case: they are cleared without any callback |
| TimerDispatch.ServiceOrder | src/main/drivers/timer_atbsp.c:611-648 | the trace is: bits 31..5 (clears only), then C4, C3, C2, C1, then overflow |
| TimerDispatch.SingleFlag | src/main/drivers/timer_atbsp.c:611-648 | a single pending bit yields its clear followed by its callbacks |
| TimerDispatch.UpdateOnlyHasNoEdgeCalls | src/main/drivers/timer_atbsp.c:684-709 | the update-only loop never calls an edge callback |
| TimerDispatch.RunOverflowChain | src/main/drivers/timer_atbsp.c:628-632 | the `while (cb)` walk calls exactly the chain, in order |
| TimerDispatch.ServeBit | src/main/drivers/timer_atbsp.c:618-647 | the switch makes the calls bit 31 - clz stands for; the overflow case consumes the forced value |
| TimerDispatch.ServeHighest | src/main/drivers/timer_atbsp.c:614-647 | one turn takes the highest remaining flag, clears it in ists and in the local copy, and serves it |
| TimerDispatch.ServiceFlags | src/main/drivers/timer_atbsp.c:609-648 | the whole loop's trace is ServiceFrom of `ists & iden` at entry; exactly the pending flags are cleared; the forced value is consumed only when the overflow flag was pending; nothing else changes |
| TimerDispatch.TimCCxHandler | src/main/drivers/timer_atbsp.c:605-648 | as ServiceFlags with the channel cases, requiring the slot of every pending enabled C`n` flag to be non-null |
| TimerDispatch.TimUpdateHandler | src/main/drivers/timer_atbsp.c:679-710 | as ServiceFlags with the overflow case only: every pending flag is cleared and no edge callback is called |
| TimerSubsystems.PriorityAfter | src/main/drivers/timer_atbsp.c:371-379 | a request below the committed priority replaces it; any other request leaves it |
| TimerSubsystems.PriorityIsMinimum | src/main/drivers/timer_atbsp.c:371-379 | after any sequence of non-negative requests, of any size, the priority is at most every request and the start, and is one of them |
| TimerSubsystems.PriorityAfterInit | src/main/drivers/timer_atbsp.c:825 | starting from timerInit's 255, the committed priority after non-negative requests is min(255, every request) |
| TimerSubsystems.NegativePriorityWraps | src/main/drivers/timer_atbsp.c:378 | a negative request passes the comparison and is stored truncated to a byte (-1 becomes 255) |
| TimerSubsystems.FreeRunning | src/main/drivers/timer_atbsp.c:372 | `configTimeBase(tim, 0, 1)` programs period 0xFFFF and prescaler clock - 1 |
| TimerSubsystems.TimerSubsystem.TimerOf | src/main/drivers/timer_atbsp.c:368 | an in-range lookup of a channel's timer is that timer's slot |
| TimerSubsystems.TimerSubsystem.constructor | src/main/drivers/timer_atbsp.c:65-88 | the tables as the zeroed program image leaves them: empty slots, TYPE_FREE channels, priority 0, one fresh register block per used timer |
| TimerSubsystems.TimerSubsystem.TimerInit | src/main/drivers/timer_atbsp.c:806-827 | every config entry zeroed, every channel TYPE_FREE, every timer priority 255 |
| TimerSubsystems.TimerSubsystem.ChInit | src/main/drivers/timer_atbsp.c:361-381 | an out-of-range channel changes nothing; otherwise the type is tagged even if the timer lookup fails; a more urgent priority reprograms the free-running time base, starts the counter, enables the interrupt line and lowers the priority; otherwise no register changes |
| TimerSubsystems.TimerSubsystem.ChConfigCallbacks | src/main/drivers/timer_atbsp.c:416-433 | an unknown timer leaves every register, slot, chain head, forced value and the record's link as they were; otherwise as ConfigCallbacksOn on the timer's slot, the displaced overflow record's link is left as it was, and every other timer's registers, slots, chain head and forced value are kept |
| TimerSubsystems.TimerSubsystem.ConfigUpdateCallback | src/main/drivers/timer_atbsp.c:435-443 | an unknown timer leaves every register, slot, chain head, forced value and the record's link as they were; otherwise updateCallback is set and the chain rebuilt, the displaced update record's link is left as it was, and every other timer's registers, slots, chain head and forced value are kept |
| TimerSubsystems.TimerSubsystem.ForceOverflow | src/main/drivers/timer_atbsp.c:865-876 | stages ForcedValue(cval) and raises the overflow trigger on the looked-up timer |
| TimerSubsystems.TimerSubsystem.IrqHandler | src/main/drivers/timer_atbsp.c:744-748 | the vector of timer i runs timCCxHandler on i's register block and config entry |
| TimerSubsystems.TimerSubsystem.IrqHandlerUpdateOnly | src/main/drivers/timer_atbsp.c:750-754 | the vector runs timUpdateHandler: no edge callback is called |
| TimerSubsystems.TimerSubsystem.IrqHandler2 | src/main/drivers/timer_atbsp.c:737-742 | both timers are served as IrqHandler serves one, i first: each trace is its timer's full service, the pending flags are cleared, a pending overflow consumes the forced value, every other register, slot and head is kept, and both entries stay valid |
| TimerSubsystems.ForceOverflowOn | src/main/drivers/timer_atbsp.c:869-875 | the forced value becomes cval + 1 (32-bit) and ovfswtr is raised; the chain and its invariant are kept |
| TimerSubsystems.NewTimers | src/main/drivers/timer_atbsp.c:158-216 | one distinct register block and config entry per number-table entry, in table order |
| TimerSubsystems.ConfigCallbacksOn | src/main/drivers/timer_atbsp.c:422-432 | both slots at `channel >> 2` are written; a null edge callback disables TIM_IT_CCx before the write, a non-null one enables it after; the chain is rebuilt; the channel's enable bit ends equal to "edge is set" and the overflow bit to "chain non-empty"; the overflow record the write displaces keeps its `next` |
| TimerSubsystems.ConfigUpdateOn | src/main/drivers/timer_atbsp.c:441-442 | updateCallback is written and the chain rebuilt, with the overflow enable equal to "chain non-empty"; the update record the write displaces keeps its `next` |
| TimerScenarios.Timer1Slot | src/main/drivers/timer_atbsp.c:101-103 | TMR1 is used and has slot 0 |
| TimerScenarios.Timer1WithRecord | src/main/drivers/timer_atbsp.c:435-443 | registering one update callback on a reset entry makes the chain that one record and enables the overflow interrupt |
| TimerScenarios.OneFlagReady | src/main/drivers/timer_atbsp.c:635-646 | with one flag n raised, the dispatcher would dereference an empty slot exactly when n is an enabled channel whose slot n - 1 is null |
| TimerScenarios.OverflowTrace | src/main/drivers/timer_atbsp.c:619-632 | serving the overflow flag alone with one record clears the flag, then calls the record with the capture |
| TimerScenarios.OverflowInterrupt | src/main/drivers/timer_atbsp.c:605-648 | an overflow on a one-record chain clears the flag, calls the record with the capture and consumes the forced value |
| TimerScenarios.ForcedTimer1 | src/main/drivers/timer_atbsp.c:865-876 | timerForceOverflow on TMR1 stages cval + 1 and raises ovfswtr |
| TimerScenarios.ForcedOverflowDelivery | src/main/drivers/timer_atbsp.c:619-626 | after timerForceOverflow the next overflow delivers cval mod 2^16, and the one after that delivers pr mod 2^16 |
| TimerScenarios.EdgeTrace | src/main/drivers/timer_atbsp.c:635-646 | a single pending C`n` flag clears the flag, then calls edgeCallback[n - 1] with c`n`dt |
| TimerScenarios.EdgeOnChannel | src/main/drivers/timer_atbsp.c:416-433 | on a reset entry, the edge callback of channel c lands in slot `c >> 2` and only bit c is enabled |
| TimerScenarios.Channel2Stranded | src/main/drivers/timer_atbsp.c:638-639 | channel 2's callback lands in slot 0 while bit 2 is enabled, so a raised C2 flag meets the empty slot 1 |
| TimerScenarios.Channel1Capture | src/main/drivers/timer_atbsp.c:635-637 | a capture on channel 1, registered through timerChConfigCallbacks, clears C1 and calls the callback with c1dt |

## Left out

- Interrupt controller, clock and GPIO calls: `nvic_irq_enable`, `timerNVICConfigure`, `RCC_ClockCmd`, the GPIO remap, `timerRCC` and `timerInputIrq`, and `timerConfigure`. They are vendor and hardware calls. `timerChInit`'s interrupt-line enable appears only as a trace event.
- Vendor register programming: `tmr_input_channel_init`, `timerChConfigIC` beyond `getFilter`, `timerOCInit`, `timerOCPreloadConfig`, `timerChConfigGPIO`, `timerChITConfig` and `timerChClearCCFlag`. They are thin wrappers over a library that is not part of this model.
- The clock-division and count-direction writes of `configTimeBase`. They are vendor calls that the core never reads back. `BaseInit` writes only the period and prescaler.
- `timerChCCR` and `timerCCR`. They compute raw volatile register addresses.
- `ATOMIC_BLOCK`/BASEPRI preemption. Each critical section is one atomic method, and interleaving with the interrupt is not modelled.
- Dead code: the `#if 0` body of `timerStart`, the `#else` dispatcher, and the commented-out dual-channel and output-compare functions.
- Address decoding through `>> _CASE_SHF`. A timer is identified by its number.
- Target headers. `USED_TIMERS`, `TIMER_CHANNEL_COUNT` and the hardware table are not part of this model:
  - the mask is the fixed target 0x10053E;
  - the hardware table is a constructor parameter;
  - each timer's clock (`timerClock`) is an input.
- Callback bodies. A callback invocation is a trace event carrying the record and the argument. The conversion of `c<n>dt` to the callback's parameter type happens in code that is not part of this model. Callbacks are taken not to re-enter the driver: the overflow loop reads `cb->next` after `cb->fn` returns (timer_atbsp.c:629-632), so a callback that re-registers records would change the walk, and the model does not capture that.
- The hardware effect of `ovfswtr`. The scenarios raise the overflow flag explicitly before dispatching.
- MHZ_TO_HZ overflow. `PrescalerByDesiredMhz` requires mhz <= 2147, so that `mhz * 1000000` fits in 32 bits.
- Fixed arrays as sequences. The `timerConfig_t` slot arrays are `seq` fields of length 4, reassigned whole.
- TimerDispatch.TimCCxHandler: requires the slot of every pending, enabled C`n` flag to be non-null. The C code dereferences it without a check, and a null slot is undefined behaviour, not a modelled outcome (`OneFlagReady` characterises when it happens).
- TimerSubsystems.TimerSubsystem.IrqHandler2: requires i != j. Every instance in the source pairs two different timers.
- TimerSubsystems.TimerSubsystem.ChConfigCallbacks: requires that the overflow record is not already in another slot of that timer. The walk would then write the record's `next` once per occurrence, with the last write winning, so the records between the two occurrences drop out of the chain (slots A, R, B, R give A, R). The model's invariant that the chain is the list of non-null slots cannot describe that outcome.
- TimerSubsystems.TimerSubsystem.ConfigUpdateCallback: requires that the update record is not already one of that timer's per-channel overflow records. The reason is the same: the records between the two occurrences would drop out of the chain.
- TimerSubsystems.TimerSubsystem.ForceOverflow: requires the timer lookup to be in range. The C code indexes `timerConfig` without a check.
- TimerSubsystems.TimerSubsystem.ChConfigCallbacks: states that the other timers' slots, chain heads and forced values are unchanged, not that their chains stay valid. A record shared between two timers would be relinked by this timer's walk. The same holds for ConfigUpdateCallback.
