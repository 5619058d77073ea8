/// The timer interrupt dispatcher: a bit-scan over the pending and enabled
/// flags, highest bit first, that clears each flag and runs the callbacks the
/// flag stands for.  ServiceFrom is the reference order of effects; the handler
/// methods are proved to produce exactly that trace.
module TimerDispatch {

  import opened Bits
  import opened TimerTypes
  import opened TimerConfigs

  // ----- the overflow capture value -----

  /** capture as timCCxHandler computes it: the staged value minus one when a
      forced overflow is pending, the period register otherwise, as a uint16. */
  function OverflowCapture(forced: uint32, pr: uint32): (c: uint16)
  {
    if forced != 0 then (forced - 1) % 0x1_0000 else pr % 0x1_0000
  }

  /** forcedOverflowTimerValue as timerForceOverflow stages it: cval + 1 in
      unsigned 32-bit arithmetic. */
  function ForcedValue(cval: uint32): (f: uint32)
    ensures cval < 0xFFFF_FFFF ==> f == cval + 1
  {
    (cval + 1) % 0x1_0000_0000
  }

  /** A forced overflow delivers the counter value it saved, cut to 16 bits, except
      when the counter was 0xFFFFFFFF: cval + 1 wraps to 0, which reads as nothing
      staged, and the period register is delivered instead. */
  lemma ForcedCapture(cval: uint32, pr: uint32)
    ensures cval < 0xFFFF_FFFF ==> OverflowCapture(ForcedValue(cval), pr) == cval % 0x1_0000
    ensures cval == 0xFFFF_FFFF ==> OverflowCapture(ForcedValue(cval), pr) == pr % 0x1_0000
  {
  }

  /** With nothing staged the overflow delivers the period register. */
  lemma PlainCapture(pr: uint32)
    ensures OverflowCapture(0, pr) == pr % 0x1_0000
    ensures pr < 0x1_0000 ==> OverflowCapture(0, pr) == pr
  {
  }

  // ----- the reference order of effects -----

  /** Everything one pass of the dispatcher reads: the timer, the edge slots, the
      overflow chain, the overflow capture value, c1dt..c4dt, and whether the
      pass serves the capture/compare cases (timCCxHandler) or only the overflow
      case (timUpdateHandler). */
  datatype DispatchView = DispatchView(
    timer: nat,
    edge: seq<CCHandlerRec?>,
    chain: seq<OvrHandlerRec>,
    capture: uint16,
    captures: seq<uint32>,
    edges: bool)

  predicate WellShaped(v: DispatchView)
  {
    |v.edge| == 4 && |v.captures| == 4
  }

  /** mask = ~(0x80000000 >> clz): every bit but bit b. */
  function BitMask(b: nat): (m: uint32)
    requires b < 32
    ensures forall j :: Bit(m, j) == (j < 32 && j != b)
  {
    Pow2Value32();
    Pow2Monotone(b, 31);
    forall j ensures Bit(Not32(Pow2(b)), j) == (j < 32 && j != b) {
      NotBit(Pow2(b), j);
      Pow2Bit(b, j);
    }
    Not32(Pow2(b))
  }

  /** Each record of the chain called once with the capture value, in chain order. */
  function OverflowCalls(chain: seq<OvrHandlerRec>, capture: uint16): (t: seq<Event>)
    ensures |t| == |chain|
    ensures forall i :: 0 <= i < |chain| ==> t[i] == OverflowCall(chain[i], capture)
  {
    if chain == [] then [] else [OverflowCall(chain[0], capture)] + OverflowCalls(chain[1..], capture)
  }

  /** The effects of serving pending bit b: the flag is cleared first, then bit 0
      runs the overflow chain and bits 1..4 (capture/compare channels 1..4) call
      their edge callback with the channel's capture register.  Every other bit is
      only cleared. */
  function BitEvents(b: nat, v: DispatchView): seq<Event>
    requires b < 32 && WellShaped(v)
  {
    [FlagClear(v.timer, BitMask(b))] + BitCalls(b, v)
  }

  /** The callbacks bit b stands for. */
  function BitCalls(b: nat, v: DispatchView): seq<Event>
    requires WellShaped(v)
  {
    if b == 0 then OverflowCalls(v.chain, v.capture)
    else if v.edges && 1 <= b <= 4 then [EdgeCall(v.edge[b - 1], v.captures[b - 1])]
    else []
  }

  /** The effects of serving the bits of pending at positions lo..31, highest first. */
  function ServiceFrom(pending: nat, lo: nat, v: DispatchView): seq<Event>
    requires WellShaped(v)
    decreases 32 - lo
  {
    if lo >= 32 then []
    else ServiceFrom(pending, lo + 1, v) + (if Bit(pending, lo) then BitEvents(lo, v) else [])
  }

  // ----- properties of the reference order -----

  /** Bits that are not pending contribute nothing. */
  lemma {:induction false} ServiceSkip(pending: nat, lo: nat, hi: nat, v: DispatchView)
    requires WellShaped(v) && lo <= hi <= 32
    requires forall j :: lo <= j < hi ==> !Bit(pending, j)
    ensures ServiceFrom(pending, lo, v) == ServiceFrom(pending, hi, v)
    decreases hi - lo
  {
    if lo < hi {
      ServiceSkip(pending, lo + 1, hi, v);
    }
  }

  /** The flag masks written, in order. */
  function ClearsOf(t: seq<Event>): seq<nat>
  {
    if t == [] then []
    else (if t[0].FlagClear? then [t[0].mask] else []) + ClearsOf(t[1..])
  }

  /** The callbacks invoked, in order. */
  function CallsOf(t: seq<Event>): seq<Event>
  {
    if t == [] then []
    else (if t[0].EdgeCall? || t[0].OverflowCall? then [t[0]] else []) + CallsOf(t[1..])
  }

  lemma TraceConcat(a: seq<Event>, b: seq<Event>)
    ensures ClearsOf(a + b) == ClearsOf(a) + ClearsOf(b)
    ensures CallsOf(a + b) == CallsOf(a) + CallsOf(b)
  {
    ClearsConcat(a, b);
    CallsConcat(a, b);
  }

  lemma {:induction false} ClearsConcat(a: seq<Event>, b: seq<Event>)
    ensures ClearsOf(a + b) == ClearsOf(a) + ClearsOf(b)
  {
    if a == [] {
      assert a + b == b;
    } else {
      var ab := a + b;
      assert ab[0] == a[0] && ab[1..] == a[1..] + b;
      ClearsConcat(a[1..], b);
      var h := if a[0].FlagClear? then [a[0].mask] else [];
      assert ClearsOf(ab) == h + ClearsOf(ab[1..]);
      assert ClearsOf(a) == h + ClearsOf(a[1..]);
    }
  }

  lemma {:induction false} CallsConcat(a: seq<Event>, b: seq<Event>)
    ensures CallsOf(a + b) == CallsOf(a) + CallsOf(b)
  {
    if a == [] {
      assert a + b == b;
    } else {
      var ab := a + b;
      assert ab[0] == a[0] && ab[1..] == a[1..] + b;
      CallsConcat(a[1..], b);
      var h := if a[0].EdgeCall? || a[0].OverflowCall? then [a[0]] else [];
      assert CallsOf(ab) == h + CallsOf(ab[1..]);
      assert CallsOf(a) == h + CallsOf(a[1..]);
    }
  }

  lemma {:induction false} OverflowCallsShape(chain: seq<OvrHandlerRec>, capture: uint16)
    ensures ClearsOf(OverflowCalls(chain, capture)) == []
    ensures CallsOf(OverflowCalls(chain, capture)) == OverflowCalls(chain, capture)
  {
    if chain != [] {
      var head := [OverflowCall(chain[0], capture)];
      OverflowCallsShape(chain[1..], capture);
      TraceConcat(head, OverflowCalls(chain[1..], capture));
      assert ClearsOf(head) == [] + ClearsOf(head[1..]);
      assert CallsOf(head) == head + CallsOf(head[1..]);
    }
  }

  /** The pending positions from lo up, highest first. */
  function PendingBits(pending: nat, lo: nat): seq<nat>
    decreases 32 - lo
  {
    if lo >= 32 then [] else PendingBits(pending, lo + 1) + (if Bit(pending, lo) then [lo] else [])
  }

  /** PendingBits lists every pending position at or above lo exactly once, in
      strictly descending order. */
  lemma {:induction false} PendingBitsSpec(pending: nat, lo: nat)
    ensures forall b :: b in PendingBits(pending, lo) <==> lo <= b < 32 && Bit(pending, b)
    ensures forall a, c :: 0 <= a < c < |PendingBits(pending, lo)| ==>
      PendingBits(pending, lo)[a] > PendingBits(pending, lo)[c]
    decreases 32 - lo
  {
    if lo < 32 {
      var p := PendingBits(pending, lo + 1);
      PendingBitsSpec(pending, lo + 1);
      var q := PendingBits(pending, lo);
      assert q == p + (if Bit(pending, lo) then [lo] else []);
      forall b
        ensures b in q <==> lo <= b < 32 && Bit(pending, b)
      {
        assert b in q <==> b in p || (Bit(pending, lo) && b == lo);
      }
      forall a, c | 0 <= a < c < |q|
        ensures q[a] > q[c]
      {
        assert q[a] == p[a] && p[a] in p;
        if c < |p| {
          assert q[c] == p[c];
        }
      }
    }
  }

  function Masks(bits: seq<nat>): (m: seq<nat>)
    requires forall i :: 0 <= i < |bits| ==> bits[i] < 32
    ensures |m| == |bits|
    ensures forall i :: 0 <= i < |bits| ==> m[i] == BitMask(bits[i])
  {
    if bits == [] then [] else Masks(bits[..|bits| - 1]) + [BitMask(bits[|bits| - 1])]
  }

  lemma PendingBelow32(pending: nat, lo: nat)
    ensures forall i :: 0 <= i < |PendingBits(pending, lo)| ==> PendingBits(pending, lo)[i] < 32
  {
    PendingBitsSpec(pending, lo);
    forall i | 0 <= i < |PendingBits(pending, lo)|
      ensures PendingBits(pending, lo)[i] < 32
    {
      assert PendingBits(pending, lo)[i] in PendingBits(pending, lo);
    }
  }

  /** Serving one bit writes exactly its own flag mask. */
  lemma BitEventsClears(b: nat, v: DispatchView)
    requires b < 32 && WellShaped(v)
    ensures ClearsOf(BitEvents(b, v)) == [BitMask(b)]
  {
    var head := [FlagClear(v.timer, BitMask(b))];
    TraceConcat(head, BitCalls(b, v));
    OverflowCallsShape(v.chain, v.capture);
    assert ClearsOf(head) == [BitMask(b)] + ClearsOf(head[1..]);
    var c := BitCalls(b, v);
    if b != 0 && c != [] {
      assert ClearsOf(c) == [] + ClearsOf(c[1..]);
    }
  }

  lemma MasksAppend(bits: seq<nat>, b: nat)
    requires forall i :: 0 <= i < |bits| ==> bits[i] < 32
    requires b < 32
    ensures Masks(bits + [b]) == Masks(bits) + [BitMask(b)]
  {
    assert (bits + [b])[..|bits|] == bits;
  }

  /** Every pending bit is cleared exactly once, highest first: the flag writes of
      a pass are the masks of the pending positions in descending order. */
  lemma {:induction false} ServiceClears(pending: nat, lo: nat, v: DispatchView)
    requires WellShaped(v)
    ensures forall i :: 0 <= i < |PendingBits(pending, lo)| ==> PendingBits(pending, lo)[i] < 32
    ensures ClearsOf(ServiceFrom(pending, lo, v)) == Masks(PendingBits(pending, lo))
    decreases 32 - lo
  {
    PendingBelow32(pending, lo);
    if lo < 32 {
      ServiceClears(pending, lo + 1, v);
      var rest := if Bit(pending, lo) then BitEvents(lo, v) else [];
      TraceConcat(ServiceFrom(pending, lo + 1, v), rest);
      if Bit(pending, lo) {
        BitEventsClears(lo, v);
        MasksAppend(PendingBits(pending, lo + 1), lo);
      } else {
        assert PendingBits(pending, lo) == PendingBits(pending, lo + 1) + [];
      }
    }
  }

  /** Bits 5..31 have no case: they are cleared and nothing is called. */
  lemma {:induction false} HighBitsSilent(pending: nat, lo: nat, v: DispatchView)
    requires WellShaped(v) && lo >= 5
    ensures CallsOf(ServiceFrom(pending, lo, v)) == []
    decreases 32 - lo
  {
    if lo < 32 {
      HighBitsSilent(pending, lo + 1, v);
      var rest := if Bit(pending, lo) then BitEvents(lo, v) else [];
      TraceConcat(ServiceFrom(pending, lo + 1, v), rest);
      if Bit(pending, lo) {
        var head := [FlagClear(v.timer, BitMask(lo))];
        TraceConcat(head, []);
        assert CallsOf(head) == [] + CallsOf(head[1..]);
      }
    }
  }

  /** The effects of one capture/compare channel n in 1..4. */
  function ChannelEvents(pending: nat, n: nat, v: DispatchView): seq<Event>
    requires WellShaped(v) && 1 <= n <= 4
  {
    if !Bit(pending, n) then []
    else [FlagClear(v.timer, BitMask(n))] + (if v.edges then [EdgeCall(v.edge[n - 1], v.captures[n - 1])] else [])
  }

  /** The effects of the overflow bit. */
  function OverflowEvents(pending: nat, v: DispatchView): seq<Event>
  {
    if !Bit(pending, 0) then []
    else [FlagClear(v.timer, BitMask(0))] + OverflowCalls(v.chain, v.capture)
  }

  /** A full pass, spelled out: the uncased bits 5..31 first, then C4, C3, C2, C1,
      and the overflow chain last. */
  lemma ServiceOrder(pending: nat, v: DispatchView)
    requires WellShaped(v)
    ensures ServiceFrom(pending, 0, v) ==
      ServiceFrom(pending, 5, v)
      + ChannelEvents(pending, 4, v) + ChannelEvents(pending, 3, v)
      + ChannelEvents(pending, 2, v) + ChannelEvents(pending, 1, v)
      + OverflowEvents(pending, v)
    ensures CallsOf(ServiceFrom(pending, 5, v)) == []
  {
    HighBitsSilent(pending, 5, v);
    assert ServiceFrom(pending, 4, v) == ServiceFrom(pending, 5, v) + ChannelEvents(pending, 4, v);
    assert ServiceFrom(pending, 3, v) == ServiceFrom(pending, 4, v) + ChannelEvents(pending, 3, v);
    assert ServiceFrom(pending, 2, v) == ServiceFrom(pending, 3, v) + ChannelEvents(pending, 2, v);
    assert ServiceFrom(pending, 1, v) == ServiceFrom(pending, 2, v) + ChannelEvents(pending, 1, v);
    assert ServiceFrom(pending, 0, v) == ServiceFrom(pending, 1, v) + OverflowEvents(pending, v);
  }

  /** A pass that finds only flag n pending clears it and serves it, nothing else. */
  lemma SingleFlag(n: nat, v: DispatchView)
    requires n < 32 && WellShaped(v)
    ensures ServiceFrom(Pow2(n), 0, v) == BitEvents(n, v)
  {
    forall k ensures Bit(Pow2(n), k) <==> k == n {
      Pow2Bit(n, k);
    }
    ServiceSkip(Pow2(n), 0, n, v);
    ServiceSkip(Pow2(n), n + 1, 32, v);
    assert ServiceFrom(Pow2(n), n, v) == [] + BitEvents(n, v);
  }

  /** timUpdateHandler never calls an edge callback. */
  lemma {:induction false} UpdateOnlyHasNoEdgeCalls(pending: nat, lo: nat, v: DispatchView)
    requires WellShaped(v) && !v.edges
    ensures forall e :: e in ServiceFrom(pending, lo, v) ==> !e.EdgeCall?
    decreases 32 - lo
  {
    if lo < 32 {
      UpdateOnlyHasNoEdgeCalls(pending, lo + 1, v);
    }
  }

  // ----- the handlers -----

  /** tim->ists & tim->iden */
  function Pending(tim: Tmr): uint32
    reads tim
  {
    And32(tim.ists, tim.iden)
  }

  /** What a pass over tim and cfg reads, in the state it starts from. */
  function ViewOf(tim: Tmr, cfg: TimerConfig, edges: bool): DispatchView
    reads tim, cfg
  {
    DispatchView(tim.number, cfg.edgeCallback, cfg.Chain(),
      OverflowCapture(cfg.forcedOverflowTimerValue, tim.pr), tim.Captures(), edges)
  }

  /** The dispatcher dereferences edgeCallback[n - 1] for every pending and enabled
      Cn flag without a null check. */
  predicate EdgeSlotsReady(tim: Tmr, cfg: TimerConfig)
    reads tim, cfg
    requires cfg.Shaped()
  {
    forall n :: 1 <= n <= 4 && Bit(tim.ists, n) && Bit(tim.iden, n) ==> cfg.edgeCallback[n - 1] != null
  }

  /** The while (cb) walk of the overflow chain: every record once, in order. */
  method RunOverflowChain(cfg: TimerConfig, capture: uint16) returns (trace: seq<Event>)
    requires cfg.Valid()
    ensures trace == OverflowCalls(cfg.Chain(), capture)
  {
    ghost var chain := cfg.Chain();
    assert ChainIs(cfg.overflowCallbackActive, chain);
    var cb := cfg.overflowCallbackActive;
    ghost var i := 0;
    trace := [];
    while cb != null
      invariant 0 <= i <= |chain|
      invariant cb == (if i < |chain| then chain[i] else null)
      invariant ChainIs(cfg.overflowCallbackActive, chain)
      invariant trace == OverflowCalls(chain[..i], capture)
      decreases |chain| - i
    {
      assert chain[..i + 1] == chain[..i] + [cb];
      OverflowCallsAppend(chain[..i], cb, capture);
      trace := trace + [OverflowCall(cb, capture)];
      ChainNext(cfg.overflowCallbackActive, chain, i);
      cb := cb.next;
      i := i + 1;
    }
    assert chain[..i] == chain;
  }

  lemma ChainNext(head: OvrHandlerRec?, list: seq<OvrHandlerRec>, i: nat)
    requires ChainIs(head, list) && i < |list|
    ensures list[i].next == (if i + 1 < |list| then list[i + 1] else null)
  {
  }

  lemma {:induction false} OverflowCallsAppend(chain: seq<OvrHandlerRec>, r: OvrHandlerRec, capture: uint16)
    ensures OverflowCalls(chain + [r], capture) == OverflowCalls(chain, capture) + [OverflowCall(r, capture)]
  {
    if chain != [] {
      assert (chain + [r])[1..] == chain[1..] + [r];
      OverflowCallsAppend(chain[1..], r, capture);
    }
  }

  /** ~(0x80000000 >> bit): the mask that clears the flag bit counts down from
      the top, which is flag 31 - bit. */
  function TopMask(bit: nat): (m: uint32)
    requires bit < 32
    ensures m == BitMask(31 - bit)
  {
    Pow2Value32();
    TopBit(bit);
    Not32(Shr(Pow2(31), bit))
  }

  lemma TopBit(bit: nat)
    requires bit < 32
    ensures Shr(Pow2(31), bit) == Pow2(31 - bit) <= Pow2(31)
  {
    ShrPow2(31, bit);
    Pow2Monotone(31 - bit, 31);
  }

  /** Taking the highest set bit h of the local copy: it is a pending bit below
      the last one served, no pending bit lies between the two, and clearing h
      leaves the pending bits below h. */
  lemma StatusStep(status: uint32, pending: nat, k: nat, h: nat, v: DispatchView)
    requires WellShaped(v) && k <= 32 && h < 32
    requires forall j: nat :: Bit(status, j) == (j < k && Bit(pending, j))
    requires Bit(status, h) && forall j: nat :: h < j ==> !Bit(status, j)
    ensures h < k && Bit(pending, h)
    ensures forall j: nat :: Bit(And32(status, BitMask(h)), j) == (j < h && Bit(pending, j))
    ensures ServiceFrom(pending, h, v) == ServiceFrom(pending, k, v) + BitEvents(h, v)
  {
    forall j: nat | h + 1 <= j < k
      ensures !Bit(pending, j)
    {
      assert !Bit(status, j);
    }
    ServiceSkip(pending, h + 1, k, v);
  }

  /** The status register after writing the mask of flag h. */
  lemma IstsStep(ists: uint32, start: uint32, pending: nat, k: nat, h: nat)
    requires h < k <= 32 && Bit(pending, h)
    requires forall j: nat :: Bit(ists, j) == (Bit(start, j) && !(k <= j && Bit(pending, j)))
    requires forall j: nat :: h < j < k ==> !Bit(pending, j)
    ensures forall j: nat :: Bit(FlagWrite(ists, BitMask(h)), j) == (Bit(start, j) && !(h <= j && Bit(pending, j)))
  {
    forall j: nat | j >= 32
      ensures !Bit(start, j)
    {
      NoHighBit(start, j);
    }
  }

  /** The case of the dispatcher's switch for flag 31 - bit, with the view v of
      the pass: the overflow case consumes the staged forced value and walks the
      chain, the Cn cases call edgeCallback[n - 1] with cndt, and every other flag
      calls nothing. */
  method ServeBit(tim: Tmr, cfg: TimerConfig, bit: nat, edges: bool, ghost v: DispatchView)
    returns (calls: seq<Event>)
    requires bit < 32 && cfg.Valid() && v == ViewOf(tim, cfg, edges)
    requires edges && 27 <= bit <= 30 ==> cfg.edgeCallback[30 - bit] != null
    modifies cfg`forcedOverflowTimerValue
    ensures calls == BitCalls(31 - bit, v)
    ensures cfg.forcedOverflowTimerValue == (if bit == 31 then 0 else old(cfg.forcedOverflowTimerValue))
    ensures cfg.Valid()
  {
    if bit == 31 {
      var capture: uint16;
      if cfg.forcedOverflowTimerValue != 0 {
        capture := (cfg.forcedOverflowTimerValue - 1) % 0x1_0000;
        cfg.forcedOverflowTimerValue := 0;
      } else {
        capture := tim.pr % 0x1_0000;
      }
      calls := RunOverflowChain(cfg, capture);
    } else if edges && bit == 30 {
      var rec: CCHandlerRec := cfg.edgeCallback[0];
      calls := [EdgeCall(rec, tim.c1dt)];
    } else if edges && bit == 29 {
      var rec: CCHandlerRec := cfg.edgeCallback[1];
      calls := [EdgeCall(rec, tim.c2dt)];
    } else if edges && bit == 28 {
      var rec: CCHandlerRec := cfg.edgeCallback[2];
      calls := [EdgeCall(rec, tim.c3dt)];
    } else if edges && bit == 27 {
      var rec: CCHandlerRec := cfg.edgeCallback[3];
      calls := [EdgeCall(rec, tim.c4dt)];
    } else {
      calls := [];
    }
  }

  /** What one pass of the dispatcher over tim and cfg does: its trace is the
      reference order of the flags pending at entry, every pending flag is
      cleared in ists and nothing else is, no other register changes, a staged
      forced overflow is consumed exactly when the overflow flag was pending, and
      the slots and the chain head are untouched. */
  twostate predicate Served(tim: Tmr, cfg: TimerConfig, edges: bool, new trace: seq<Event>)
    reads tim, cfg
  {
    && old(cfg.Shaped())
    && trace == ServiceFrom(old(Pending(tim)), 0, old(ViewOf(tim, cfg, edges)))
    && (forall j :: Bit(tim.ists, j) == (Bit(old(tim.ists), j) && !Bit(old(Pending(tim)), j)))
    && tim.State() == old(tim.State()).(ists := tim.ists)
    && cfg.forcedOverflowTimerValue ==
      (if Bit(old(Pending(tim)), 0) then 0 else old(cfg.forcedOverflowTimerValue))
    && cfg.updateCallback == old(cfg.updateCallback) && cfg.edgeCallback == old(cfg.edgeCallback)
    && cfg.overflowCallback == old(cfg.overflowCallback)
    && cfg.overflowCallbackActive == old(cfg.overflowCallbackActive)
  }

  /** One turn of the dispatcher's loop: take the highest flag h left in the
      local copy, clear it in the status register and in the copy, and serve it.
      Flags above h are already served, so the trace grows from the events of
      the flags above h to those of the flags from h up. */
  method ServeHighest(tim: Tmr, cfg: TimerConfig, status: uint32, edges: bool,
                      ghost pending: nat, ghost start: uint32, ghost k: nat, ghost v: DispatchView)
    returns (rest: uint32, events: seq<Event>, ghost h: nat)
    requires status != 0 && k <= 32 && cfg.Valid() && v == ViewOf(tim, cfg, edges)
    requires forall j: nat :: Bit(status, j) == (j < k && Bit(pending, j))
    requires forall j: nat :: Bit(tim.ists, j) == (Bit(start, j) && !(k <= j && Bit(pending, j)))
    requires edges ==> forall n :: 1 <= n <= 4 && Bit(pending, n) ==> cfg.edgeCallback[n - 1] != null
    modifies tim, cfg`forcedOverflowTimerValue
    ensures h < k && Bit(pending, h)
    ensures forall j: nat :: Bit(rest, j) == (j < h && Bit(pending, j))
    ensures forall j: nat :: Bit(tim.ists, j) == (Bit(start, j) && !(h <= j && Bit(pending, j)))
    ensures tim.State() == old(tim.State()).(ists := tim.ists)
    ensures ServiceFrom(pending, h, v) == ServiceFrom(pending, k, v) + events
    ensures cfg.forcedOverflowTimerValue == (if h == 0 then 0 else old(cfg.forcedOverflowTimerValue))
    ensures cfg.Valid()
  {
    var bit := Clz(status);
    h := 31 - bit;
    var mask := TopMask(bit);
    StatusStep(status, pending, k, h, v);
    IstsStep(tim.ists, start, pending, k, h);
    ghost var chain := cfg.Chain();
    assert ChainIs(cfg.overflowCallbackActive, chain);
    label Served:
    tim.WriteFlags(mask);
    rest := And32(status, mask);
    assert forall r :: r in chain ==> r.next == old@Served(r.next);
    var calls := ServeBit(tim, cfg, bit, edges, v);
    events := [FlagClear(tim.number, mask)] + calls;
  }

  /** The loop shared by timCCxHandler (edges) and timUpdateHandler (!edges):
      while a pending flag is left, serve the highest one. */
  method ServiceFlags(tim: Tmr, cfg: TimerConfig, edges: bool) returns (trace: seq<Event>)
    requires cfg.Valid()
    requires edges ==> EdgeSlotsReady(tim, cfg)
    modifies tim, cfg
    ensures Served(tim, cfg, edges, trace) && cfg.Valid()
  {
    var status := And32(tim.ists, tim.iden);
    ghost var pending := status;
    ghost var start := tim.ists;
    ghost var v := ViewOf(tim, cfg, edges);
    ghost var k: nat := 32;
    forall j: nat | j >= 32
      ensures !Bit(pending, j)
    {
      NoHighBit(status, j);
    }
    trace := [];
    while status != 0
      invariant k <= 32
      invariant forall j: nat :: Bit(status, j) == (j < k && Bit(pending, j))
      invariant forall j: nat :: Bit(tim.ists, j) == (Bit(start, j) && !(k <= j && Bit(pending, j)))
      invariant tim.State() == old(tim.State()).(ists := tim.ists)
      invariant trace == ServiceFrom(pending, k, v)
      invariant cfg.forcedOverflowTimerValue ==
        (if k == 0 && Bit(pending, 0) then 0 else old(cfg.forcedOverflowTimerValue))
      invariant cfg.updateCallback == old(cfg.updateCallback) && cfg.edgeCallback == old(cfg.edgeCallback)
      invariant cfg.overflowCallback == old(cfg.overflowCallback)
      invariant cfg.overflowCallbackActive == old(cfg.overflowCallbackActive)
      invariant cfg.Valid()
      invariant edges ==> forall n :: 1 <= n <= 4 && Bit(pending, n) ==> cfg.edgeCallback[n - 1] != null
      decreases k
    {
      var events;
      ghost var h: nat;
      assert Bit(status, 31 - Clz(status));
      assert v == ViewOf(tim, cfg, edges);
      status, events, h := ServeHighest(tim, cfg, status, edges, pending, start, k, v);
      trace := trace + events;
      k := h;
    }
    forall j: nat | j < k
      ensures !Bit(pending, j)
    {
      assert !Bit(status, j) by {
        ZeroBit(j);
      }
    }
    ServiceSkip(pending, 0, k, v);
  }

  /** timCCxHandler */
  method TimCCxHandler(tim: Tmr, cfg: TimerConfig) returns (trace: seq<Event>)
    requires cfg.Valid() && EdgeSlotsReady(tim, cfg)
    modifies tim, cfg
    ensures Served(tim, cfg, true, trace) && cfg.Valid()
  {
    trace := ServiceFlags(tim, cfg, true);
  }

  /** timUpdateHandler: the same loop with the overflow case only. */
  method TimUpdateHandler(tim: Tmr, cfg: TimerConfig) returns (trace: seq<Event>)
    requires cfg.Valid()
    modifies tim, cfg
    ensures Served(tim, cfg, false, trace) && cfg.Valid()
    ensures forall e :: e in trace ==> !e.EdgeCall?
  {
    trace := ServiceFlags(tim, cfg, false);
    UpdateOnlyHasNoEdgeCalls(old(Pending(tim)), 0, old(ViewOf(tim, cfg, false)));
  }
}
