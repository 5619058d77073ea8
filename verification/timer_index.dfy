/// Identifier compactor of the timer driver: the sparse set of hardware timers a
/// target uses is a bitmask over timer numbers (bit i stands for TMRi), and a timer's
/// dense slot in the driver's tables is the number of used timers below it.
module TimerIndex {

  import opened Bits

  /** TIM_N(i) = 1 << i: the bit that stands for TMRi. */
  function TimN(i: nat): nat
  {
    Shl(1, i)
  }

  /** BITCOUNT of a 32-bit value. */
  function BitCount(x: nat): nat
  {
    CountBelow(x, 32)
  }

  /** TIMER_INDEX for the mask m: BITCOUNT((TIM_N(i) - 1) & m). */
  function IndexIn(m: nat, i: nat): nat
  {
    ShlPow2(1, i);
    BitCount(And(TimN(i) - 1, m))
  }

  /** Timer numbers the driver's tables can list: TMR1..TMR17 and TMR20. */
  predicate Listed(k: nat)
  {
    1 <= k <= 17 || k == 20
  }

  /** A mask the driver's tables cover: every set bit is a listed timer. */
  predicate WellFormedMask(m: nat)
  {
    forall k :: 0 <= k < 32 && Bit(m, k) ==> Listed(k)
  }

  /** The listed timers below n whose bit is set, in ascending order: the
      conditional entries of the timerNumbers table. */
  function NumbersBelow(m: nat, n: nat): seq<nat>
    requires n <= 32
  {
    if n == 0 then []
    else NumbersBelow(m, n - 1) + (if Listed(n - 1) && Bit(m, n - 1) then [n - 1] else [])
  }

  /** The timerNumbers table for the mask m. */
  function NumbersFor(m: nat): seq<nat>
  {
    NumbersBelow(m, 32)
  }

  /** TIMER_INDEX(i) counts exactly the set bits of the mask below i. */
  lemma IndexIsCount(m: nat, i: nat)
    requires i <= 32
    ensures IndexIn(m, i) == CountBelow(m, i)
  {
    ShlPow2(1, i);
    var x := And(TimN(i) - 1, m);
    forall k | 0 <= k
      ensures Bit(x, k) == (k < i && Bit(m, k))
    {
      AndBit(TimN(i) - 1, m, k);
      ComplementBit(i, 0, k);
      ZeroBit(k);
    }
    CountClearAbove(x, i, 32);
    CountAgree(x, m, i);
  }

  // ----- properties of the dense index -----

  /** For a used timer i, every later timer number has a strictly larger index. */
  lemma IndexStrict(m: nat, i: nat, j: nat)
    requires i < j < 32 && Bit(m, i)
    ensures IndexIn(m, i) < IndexIn(m, j)
  {
    IndexIsCount(m, i);
    IndexIsCount(m, j);
    CountMonotone(m, i + 1, j);
  }

  /** A used timer's index is below the number of used timers (USED_TIMER_COUNT). */
  lemma IndexBelowCount(m: nat, i: nat)
    requires i < 32 && Bit(m, i)
    ensures IndexIn(m, i) < BitCount(m)
  {
    IndexIsCount(m, i);
    CountMonotone(m, i + 1, 32);
  }

  /** The table has one entry per bit set below n. */
  lemma {:induction false} NumbersLength(m: nat, n: nat)
    requires n <= 32 && WellFormedMask(m)
    ensures |NumbersBelow(m, n)| == CountBelow(m, n)
  {
    if n > 0 {
      NumbersLength(m, n - 1);
    }
  }

  /** timerNumbers[TIMER_INDEX(i)] == i for every used timer i below n. */
  lemma {:induction false} NumbersAtCount(m: nat, n: nat, i: nat)
    requires n <= 32 && WellFormedMask(m) && i < n && Bit(m, i)
    ensures CountBelow(m, i) < |NumbersBelow(m, n)|
    ensures NumbersBelow(m, n)[CountBelow(m, i)] == i
  {
    NumbersLength(m, n - 1);
    if i < n - 1 {
      NumbersAtCount(m, n - 1, i);
    } else {
      assert Listed(i);
    }
  }

  /** Every entry of the table below n is a used, listed timer below n whose own
      count is its position: the table inverts TIMER_INDEX. */
  lemma {:induction false} CountOfNumber(m: nat, n: nat, k: nat)
    requires n <= 32 && WellFormedMask(m) && k < |NumbersBelow(m, n)|
    ensures NumbersBelow(m, n)[k] < n
    ensures Bit(m, NumbersBelow(m, n)[k]) && Listed(NumbersBelow(m, n)[k])
    ensures CountBelow(m, NumbersBelow(m, n)[k]) == k
  {
    NumbersLength(m, n - 1);
    if k < |NumbersBelow(m, n - 1)| {
      CountOfNumber(m, n - 1, k);
    }
  }

  /** The table is strictly ascending. */
  lemma {:induction false} NumbersAscending(m: nat, n: nat, a: nat, b: nat)
    requires n <= 32 && a < b < |NumbersBelow(m, n)|
    ensures NumbersBelow(m, n)[a] < NumbersBelow(m, n)[b]
  {
    if b < |NumbersBelow(m, n - 1)| {
      NumbersAscending(m, n - 1, a, b);
    } else {
      NumbersBounded(m, n - 1, a);
    }
  }

  lemma {:induction false} NumbersBounded(m: nat, n: nat, k: nat)
    requires n <= 32 && k < |NumbersBelow(m, n)|
    ensures NumbersBelow(m, n)[k] < n
  {
    if k < |NumbersBelow(m, n - 1)| {
      NumbersBounded(m, n - 1, k);
    }
  }

  /** The mask-level statement: for a well-formed mask, the index is a bijection
      from the used timers onto 0..BITCOUNT(mask)-1 with the table as inverse. */
  lemma IndexRoundTrip(m: nat, i: nat)
    requires WellFormedMask(m) && i < 32 && Bit(m, i)
    ensures IndexIn(m, i) < BitCount(m) == |NumbersFor(m)|
    ensures NumbersFor(m)[IndexIn(m, i)] == i
  {
    IndexBelowCount(m, i);
    IndexIsCount(m, i);
    NumbersLength(m, 32);
    NumbersAtCount(m, 32, i);
  }

  lemma NumberRoundTrip(m: nat, k: nat)
    requires WellFormedMask(m) && k < |NumbersFor(m)|
    ensures NumbersFor(m)[k] < 32 && Bit(m, NumbersFor(m)[k])
    ensures IndexIn(m, NumbersFor(m)[k]) == k
  {
    CountOfNumber(m, 32, k);
    IndexIsCount(m, NumbersFor(m)[k]);
  }

  // ----- the configured target -----

  /** A mask built the way a target header builds USED_TIMERS: the TIM_N bits of
      the listed timers or-ed together. */
  function MaskOf(ts: seq<nat>): nat
  {
    if ts == [] then 0 else Or(TimN(ts[0]), MaskOf(ts[1..]))
  }

  /** Bit k of the mask is set exactly for the timers in the list. */
  lemma {:induction false} MaskBit(ts: seq<nat>, k: nat)
    ensures Bit(MaskOf(ts), k) <==> k in ts
  {
    if ts == [] {
      ZeroBit(k);
    } else {
      MaskBit(ts[1..], k);
      ShlPow2(1, ts[0]);
      OrBit(TimN(ts[0]), MaskOf(ts[1..]), k);
      Pow2Bit(ts[0], k);
      assert k in ts <==> k == ts[0] || k in ts[1..];
    }
  }

  /** A list of distinct timers below n sets one bit per entry. */
  lemma {:induction false} MaskCount(ts: seq<nat>, n: nat)
    requires forall a, b :: 0 <= a < b < |ts| ==> ts[a] != ts[b]
    requires forall a :: 0 <= a < |ts| ==> ts[a] < n
    ensures CountBelow(MaskOf(ts), n) == |ts|
  {
    if ts == [] {
      forall k | 0 <= k < n
        ensures !Bit(0, k)
      {
        ZeroBit(k);
      }
      CountClearAbove(0, 0, n);
    } else {
      var rest := ts[1..];
      MaskCount(rest, n);
      MaskBit(rest, ts[0]);
      forall k | 0 <= k < n
        ensures Bit(MaskOf(ts), k) == (k == ts[0] || Bit(MaskOf(rest), k))
      {
        MaskBit(ts, k);
        MaskBit(rest, k);
        assert k in ts <==> k == ts[0] || k in rest;
      }
      CountClearOne(MaskOf(ts), MaskOf(rest), n, ts[0]);
    }
  }

  /** A mask of timers below n lies below 2^n. */
  lemma {:induction false} MaskBound(ts: seq<nat>, n: nat)
    requires forall a :: 0 <= a < |ts| ==> ts[a] < n
    ensures MaskOf(ts) < Pow2(n)
  {
    if ts != [] {
      MaskBound(ts[1..], n);
      ShlPow2(1, ts[0]);
      Pow2Monotone(ts[0] + 1, n);
      OrBound(TimN(ts[0]), MaskOf(ts[1..]), n);
    }
  }

  /** Bit k of x is bit k - j of x >> j. */
  lemma {:induction false} BitDown(x: nat, k: nat, j: nat)
    requires j <= k
    ensures Bit(x, k) == Bit(Shr(x, j), k - j)
  {
    if j > 0 {
      BitDown(x / 2, k - 1, j - 1);
    }
  }

  /** Two strictly ascending lists with the same elements are equal. */
  lemma {:induction false} AscendingUnique(a: seq<nat>, b: seq<nat>)
    requires forall i, j :: 0 <= i < j < |a| ==> a[i] < a[j]
    requires forall i, j :: 0 <= i < j < |b| ==> b[i] < b[j]
    requires forall x :: x in a <==> x in b
    ensures a == b
  {
    SameEmptiness(a, b);
    if a != [] {
      assert a[0] in b && b[0] in a;
      AscendingFirst(a, b[0]);
      AscendingFirst(b, a[0]);
      forall x
        ensures x in a[1..] <==> x in b[1..]
      {
        assert x in a <==> x == a[0] || x in a[1..];
        assert x in b <==> x == b[0] || x in b[1..];
      }
      AscendingUnique(a[1..], b[1..]);
    }
  }

  lemma SameEmptiness(a: seq<nat>, b: seq<nat>)
    requires forall x :: x in a <==> x in b
    ensures a == [] <==> b == []
  {
    if a != [] {
      assert a[0] in a;
    }
    if b != [] {
      assert b[0] in b;
    }
  }

  /** The head of a strictly ascending list is its least element. */
  lemma AscendingFirst(a: seq<nat>, x: nat)
    requires forall i, j :: 0 <= i < j < |a| ==> a[i] < a[j]
    requires x in a
    ensures a[0] <= x
  {
    var i :| 0 <= i < |a| && a[i] == x;
    if i > 0 {
      assert a[0] < a[i];
    }
  }

  /** The timers of the modelled target: TMR1..TMR5, TMR8, TMR10 and TMR20. */
  const TargetTimers: seq<nat> := [1, 2, 3, 4, 5, 8, 10, 20]

  /** USED_TIMERS of the modelled target: TIM_N of each target timer or-ed
      together (TargetMask). */
  const UsedTimers: nat := 0x10_053E

  /** USED_TIMER_COUNT = BITCOUNT(USED_TIMERS) (TargetFacts). */
  const UsedTimerCount: nat := 8

  /** The timerNumbers table of the target (int8_t entries): its conditional
      entries for the used timers, in ascending order (TargetFacts). */
  const TimerNumbers: seq<nat> := [1, 2, 3, 4, 5, 8, 10, 20]

  /** The bits of USED_TIMERS, one position at a time. */
  lemma UsedBit(k: nat)
    ensures Bit(UsedTimers, k) <==> k in TargetTimers
  {
    if k >= 21 {
      Pow2Value32();
      assert Pow2(5) == 32;
      Pow2Add(16, 5);
      BitBound(UsedTimers, 21, k);
    } else if k >= 10 {
      BitDown(UsedTimers, k, 10);
      assert Shr(UsedTimers, 10) == 0x401;
      var j := k - 10;
      if j == 0 { assert Bit(0x401, 0); }
      else if j == 10 { assert Bit(0x401, 10); }
      else if j == 1 { assert !Bit(0x401, 1); }
      else if j == 2 { assert !Bit(0x401, 2); }
      else if j == 3 { assert !Bit(0x401, 3); }
      else if j == 4 { assert !Bit(0x401, 4); }
      else if j == 5 { assert !Bit(0x401, 5); }
      else if j == 6 { assert !Bit(0x401, 6); }
      else if j == 7 { assert !Bit(0x401, 7); }
      else if j == 8 { assert !Bit(0x401, 8); }
      else { assert !Bit(0x401, 9); }
    } else if k == 0 { assert !Bit(UsedTimers, 0); }
    else if k == 1 { assert Bit(UsedTimers, 1); }
    else if k == 2 { assert Bit(UsedTimers, 2); }
    else if k == 3 { assert Bit(UsedTimers, 3); }
    else if k == 4 { assert Bit(UsedTimers, 4); }
    else if k == 5 { assert Bit(UsedTimers, 5); }
    else if k == 6 { assert !Bit(UsedTimers, 6); }
    else if k == 7 { assert !Bit(UsedTimers, 7); }
    else if k == 8 { assert Bit(UsedTimers, 8); }
    else { assert !Bit(UsedTimers, 9); }
  }

  /** USED_TIMERS is the mask a target header builds from TargetTimers. */
  lemma TargetMask()
    ensures MaskOf(TargetTimers) == UsedTimers
  {
    forall k | 0 <= k < 21
      ensures Bit(MaskOf(TargetTimers), k) == Bit(UsedTimers, k)
    {
      MaskBit(TargetTimers, k);
      UsedBit(k);
    }
    MaskBound(TargetTimers, 21);
    Pow2Value32();
    assert Pow2(5) == 32;
    Pow2Add(16, 5);
    Extensional(MaskOf(TargetTimers), UsedTimers, 21);
  }

  /** The constants agree with their definitions: the mask covers only listed
      timers, USED_TIMER_COUNT is its bit count and timerNumbers is its table. */
  lemma TargetFacts()
    ensures WellFormedMask(UsedTimers)
    ensures BitCount(UsedTimers) == UsedTimerCount == |TargetTimers| == |TimerNumbers|
    ensures NumbersFor(UsedTimers) == TimerNumbers
  {
    TargetWellFormed();
    NumbersLength(UsedTimers, 32);
    TargetNumbers();
  }

  lemma TargetWellFormed()
    ensures WellFormedMask(UsedTimers)
  {
    forall k | 0 <= k < 32 && Bit(UsedTimers, k)
      ensures Listed(k)
    {
      UsedBit(k);
    }
  }

  lemma TargetNumbers()
    requires WellFormedMask(UsedTimers)
    ensures NumbersFor(UsedTimers) == TimerNumbers
  {
    var ns := NumbersFor(UsedTimers);
    TableAscending();
    forall x
      ensures x in ns <==> x in TimerNumbers
    {
      TableMember(x);
    }
    TimerNumbersAscending();
    AscendingUnique(ns, TimerNumbers);
  }

  lemma TableAscending()
    ensures forall i, j :: 0 <= i < j < |NumbersFor(UsedTimers)| ==>
      NumbersFor(UsedTimers)[i] < NumbersFor(UsedTimers)[j]
  {
    forall i, j | 0 <= i < j < |NumbersFor(UsedTimers)|
      ensures NumbersFor(UsedTimers)[i] < NumbersFor(UsedTimers)[j]
    {
      NumbersAscending(UsedTimers, 32, i, j);
    }
  }

  lemma TimerNumbersAscending()
    ensures forall i, j :: 0 <= i < j < |TimerNumbers| ==> TimerNumbers[i] < TimerNumbers[j]
  {
  }

  lemma TableMember(x: nat)
    requires WellFormedMask(UsedTimers)
    ensures x in NumbersFor(UsedTimers) <==> x in TimerNumbers
  {
    var ns := NumbersFor(UsedTimers);
    UsedBit(x);
    if x in ns {
      var k :| 0 <= k < |ns| && ns[k] == x;
      CountOfNumber(UsedTimers, 32, k);
    }
    if x in TimerNumbers {
      assert x < 32;
      NumbersAtCount(UsedTimers, 32, x);
    }
  }

  /** TIMER_INDEX(i) of the target: a used timer's dense slot, whose table entry
      names the timer again. */
  function TimerIndexOf(i: nat): (r: nat)
    requires i < 32
    ensures Bit(UsedTimers, i) ==> r < UsedTimerCount == |TimerNumbers| && TimerNumbers[r] == i
  {
    UsedIndex(i);
    IndexIn(UsedTimers, i)
  }

  lemma UsedIndex(i: nat)
    requires i < 32
    ensures Bit(UsedTimers, i) ==>
      IndexIn(UsedTimers, i) < UsedTimerCount == |TimerNumbers| && TimerNumbers[IndexIn(UsedTimers, i)] == i
  {
    TargetFacts();
    if Bit(UsedTimers, i) {
      IndexRoundTrip(UsedTimers, i);
    }
  }

  /** lookupTimerIndex: the switch has cases for TMR1..TMR17 only; every other
      timer (TMR20 included) falls to the default ~1, i.e. 254 as a uint8. */
  function LookupTimerIndex(tim: int): (r: uint8)
    ensures r < UsedTimerCount <==> 1 <= tim <= 17 && Bit(UsedTimers, tim)
    ensures r >= UsedTimerCount ==> r == 254
    ensures r < UsedTimerCount ==> r < |TimerNumbers| && TimerNumbers[r] == tim
  {
    TargetFacts();
    if 1 <= tim <= 17 && Bit(UsedTimers, tim) then
      IndexRoundTrip(UsedTimers, tim);
      TimerIndexOf(tim)
    else
      254
  }

  /** timerGetNumberByIndex: the table entry, or 0 for an index out of range. */
  function TimerGetNumberByIndex(index: uint8): (n: int)
    ensures index >= UsedTimerCount ==> n == 0
    ensures index < UsedTimerCount ==>
      0 <= n < 32 && Bit(UsedTimers, n) && Listed(n) && TimerIndexOf(n) == index
  {
    TargetFacts();
    if index < UsedTimerCount then
      NumbersLength(UsedTimers, 32);
      NumberRoundTrip(UsedTimers, index);
      TimerNumbers[index]
    else
      0
  }

  /** timerGetTIMNumber: a timer the switch knows comes back as its own number;
      any other timer gives 0. */
  function TimerGetTimNumber(tim: int): (n: int)
    ensures n == (if 1 <= tim <= 17 && Bit(UsedTimers, tim) then tim else 0)
  {
    TimerGetNumberByIndex(LookupTimerIndex(tim))
  }

  /** TMR20 is a used timer with a table entry and a dense slot, but the lookup
      switch has no case for it, so every index-validated operation ignores it. */
  lemma Timer20Unreachable()
    ensures Bit(UsedTimers, 20) && |TimerNumbers| == UsedTimerCount
    ensures TimerIndexOf(20) < UsedTimerCount && TimerNumbers[TimerIndexOf(20)] == 20
    ensures LookupTimerIndex(20) == 254 && TimerGetTimNumber(20) == 0
  {
    TargetFacts();
    UsedBit(20);
    IndexRoundTrip(UsedTimers, 20);
  }

  /** lookupChannelIndex: channel >> 2 as a uint8.  Channels are numbered 1..4 on
      this port, so channels 1..3 share slot 0 and channel 4 takes slot 1; only
      channel 1 lands in slot channel - 1. */
  function LookupChannelIndex(channel: uint16): (r: uint8)
    ensures 1 <= channel <= 3 ==> r == 0
    ensures channel == 4 ==> r == 1
    ensures 1 <= channel <= 4 ==> (r == channel - 1 <==> channel == 1)
    ensures channel < 16 ==> r < 4
  {
    (channel / 4) % 0x100
  }
}
