/// Pure helpers of the timer driver: the input-filter table search, the
/// channel-to-bit mappings of the interrupt and DMA enable registers, and the
/// 16/32-bit arithmetic that derives time-base, period and prescaler values.
/// The timer's input clock (timerClock) is a parameter throughout.
module TimerHelpers {

  import opened Bits

  // ----- input filter -----

  /** ftab of getFilter: the sample counts the input filter settings stand for. */
  const FilterTable: seq<nat> :=
    [1, 2, 4, 8, 12, 16, 24, 32, 48, 64, 80, 96, 128, 160, 192, 256]

  lemma FilterTableAscending(a: nat, b: nat)
    requires a < b < |FilterTable|
    ensures FilterTable[a] < FilterTable[b]
  {
  }

  /** The number of entries FilterTable[1..n-1] that are at most ticks. */
  function FilterCountBelow(ticks: nat, n: nat): (c: nat)
    requires 1 <= n <= |FilterTable|
    ensures c <= n - 1
  {
    if n == 1 then 0
    else FilterCountBelow(ticks, n - 1) + (if FilterTable[n - 1] <= ticks then 1 else 0)
  }

  /** The filter setting a tick count calls for: how many of ftab[1..15] it reaches. */
  function FilterCount(ticks: nat): (c: nat)
    ensures c <= 15
  {
    FilterCountBelow(ticks, 16)
  }

  /** A longer tick count never selects a weaker filter. */
  lemma {:induction false} FilterCountBelowMonotone(a: nat, b: nat, n: nat)
    requires a <= b && 1 <= n <= |FilterTable|
    ensures FilterCountBelow(a, n) <= FilterCountBelow(b, n)
  {
    if n > 1 {
      FilterCountBelowMonotone(a, b, n - 1);
    }
  }

  lemma FilterMonotone(a: nat, b: nat)
    requires a <= b
    ensures FilterCount(a) <= FilterCount(b)
  {
    FilterCountBelowMonotone(a, b, 16);
  }

  /** Once an entry exceeds ticks, every later one does too, so the count stops. */
  lemma {:induction false} FilterCountStops(ticks: nat, i: nat, n: nat)
    requires 1 <= i < |FilterTable| && i <= n <= |FilterTable| && FilterTable[i] > ticks
    ensures FilterCountBelow(ticks, n) == FilterCountBelow(ticks, i)
    decreases n
  {
    if n > i {
      FilterCountStops(ticks, i, n - 1);
      if n - 1 > i {
        FilterTableAscending(i, n - 1);
      }
    }
  }

  /** getFilter: the first i in 1..15 with ftab[i] > ticks gives i - 1, and a
      tick count no entry exceeds gives 15. */
  method GetFilter(ticks: nat) returns (f: nat)
    ensures f == FilterCount(ticks)
    ensures f <= 15
    ensures f < 15 ==> ticks < FilterTable[f + 1]
    ensures f >= 1 ==> FilterTable[f] <= ticks
  {
    var i := 1;
    while i < |FilterTable|
      invariant 1 <= i <= |FilterTable|
      invariant FilterCountBelow(ticks, i) == i - 1
      invariant i >= 2 ==> FilterTable[i - 1] <= ticks
    {
      if FilterTable[i] > ticks {
        FilterCountStops(ticks, i, 16);
        return i - 1;
      }
      i := i + 1;
    }
    return 0x0f;
  }

  // ----- register bit mappings -----

  /** TIM_IT_CCx(ch) = TMR_C1_INT << (ch - 1), where TMR_C1_INT is bit 1 (c1ien)
      of the interrupt-enable register.  Shifting a signed int by a negative
      amount or into its sign bit is undefined, so ch is 1..30. */
  function TimItCcx(ch: nat): (m: nat)
    requires 1 <= ch <= 30
    ensures forall k :: Bit(m, k) <==> k == ch
    ensures m < 0x8000_0000
  {
    SingleBit(ch, 31);
    ShlPow2(2, ch - 1);
    Shl(2, ch - 1)
  }

  /** 2^n has bit n alone, and stays below 2^top for n < top <= 32. */
  lemma SingleBit(n: nat, top: nat)
    requires n < top <= 32
    ensures forall k :: Bit(Pow2(n), k) <==> k == n
    ensures Pow2(n) < Pow2(top) && Pow2(top) <= 0x1_0000_0000
    ensures Pow2(16) == 0x1_0000 && Pow2(31) == 0x8000_0000
  {
    OnlyBit(n);
    Pow2Value32();
    Pow2Monotone(n + 1, top);
    Pow2Monotone(top, 32);
  }

  lemma OnlyBit(n: nat)
    ensures forall k :: Bit(Pow2(n), k) <==> k == n
  {
    forall k ensures Bit(Pow2(n), k) <==> k == n {
      Pow2Bit(n, k);
    }
  }

  /** TIM_CH_TO_SELCHANNEL(ch) = (ch - 1) * 2: channels 1..4 select the vendor's
      input channels 0, 2, 4, 6. */
  function TimChToSelChannel(ch: int): (s: int)
    ensures 1 <= ch <= 4 ==> s in {0, 2, 4, 6}
    ensures s % 2 == 0 && s / 2 + 1 == ch
  {
    (ch - 1) * 2
  }

  /** timerDmaSource: TMR_Cn_DMA_REQUEST is the cnden bit 8 + n of the enable
      register; any other channel gives 0. */
  function TimerDmaSource(channel: uint8): (r: uint16)
    ensures 1 <= channel <= 4 ==> forall k :: Bit(r, k) <==> k == channel + 8
    ensures !(1 <= channel <= 4) ==> r == 0
  {
    if 1 <= channel <= 4 then
      var n: nat := channel + 8;
      SingleBit(n, 16);
      Pow2(n)
    else
      0
  }

  lemma DmaSourceValues()
    ensures TimerDmaSource(1) == 0x200 && TimerDmaSource(2) == 0x400
    ensures TimerDmaSource(3) == 0x800 && TimerDmaSource(4) == 0x1000
  {
    assert Pow2(9) == 0x200;
  }

  // ----- time base, period and prescaler arithmetic -----

  /** The time base configTimeBase programs: period register (period - 1) & 0xFFFF
      and prescaler (timerClock / hz) - 1 in unsigned 32-bit arithmetic. */
  datatype TimeBase = TimeBase(period: uint16, prescaler: uint32)

  function ConfigTimeBase(period: uint16, clock: uint32, hz: uint32): (b: TimeBase)
    requires hz != 0
    ensures (b.period + 1) % 0x1_0000 == period
    ensures period == 0 ==> b.period == 0xFFFF
    ensures clock / hz >= 1 ==> b.prescaler + 1 == clock / hz
    ensures clock < hz ==> b.prescaler == 0xFFFF_FFFF
  {
    DivAtMost(clock, hz);
    DivSmall(clock, hz);
    TimeBase((period - 1) % 0x1_0000, (clock / hz - 1) % 0x1_0000_0000)
  }

  /** timerGetPeriodByPrescaler: ((clock / (prescaler + 1)) / hz) truncated to
      16 bits.  When nothing is truncated the period is the whole number of output
      ticks per cycle of hz. */
  function PeriodByPrescaler(clock: uint32, prescaler: uint16, hz: uint32): (p: uint16)
    requires hz != 0
    ensures (clock / (prescaler + 1)) / hz < 0x1_0000 ==>
      p * hz <= clock / (prescaler + 1) < (p + 1) * hz
  {
    DivBounds(clock / (prescaler + 1), hz);
    ((clock / (prescaler + 1)) / hz) % 0x1_0000
  }

  /** timerGetPrescalerByDesiredHertz: 0 when hz exceeds the clock, otherwise the
      rounded quotient (clock + hz / 2) / hz, cut to 16 bits, minus one, returned
      as a uint16.  Division by a zero hz is undefined in the source. */
  function PrescalerByDesiredHertz(clock: uint32, hz: uint32): (r: uint16)
    requires hz != 0
    ensures hz > clock ==> r == 0
  {
    if hz > clock then 0
    else ((((clock + hz / 2) % 0x1_0000_0000) / hz) % 0x1_0000 - 1) % 0x1_0000
  }

  /** The value of the prescaler expression once the rounding sum fits in 32
      bits, so that only the two 16-bit casts remain. */
  lemma PrescalerFormula(clock: uint32, hz: uint32)
    requires 0 < hz <= clock && clock + hz / 2 < 0x1_0000_0000
    ensures PrescalerByDesiredHertz(clock, hz) == (((clock + hz / 2) / hz) % 0x1_0000 - 1) % 0x1_0000
  {
    var x := clock + hz / 2;
    assert x % 0x1_0000_0000 == x;
  }

  /** While the rounded quotient fits in 16 bits, the prescaler plus one is the
      integer nearest to clock / hz (rounding halves up): it overshoots the
      clock by at most hz / 2 ticks and falls short of it by less than the
      other half of hz. */
  lemma PrescalerOfQuotient(clock: uint32, hz: uint32)
    requires 0 < hz <= clock && clock + hz / 2 < 0x1_0000_0000
    requires (clock + hz / 2) / hz < 0x1_0000
    ensures var r := PrescalerByDesiredHertz(clock, hz);
      (r + 1) * hz <= clock + hz / 2 < (r + 2) * hz
    ensures var r := PrescalerByDesiredHertz(clock, hz);
      (r + 1) * hz - hz / 2 <= clock < (r + 1) * hz + (hz - hz / 2)
  {
    PrescalerNoUnderflow(clock, hz);
    DivBounds(clock + hz / 2, hz);
  }

  /** For 0 < hz <= clock the rounded quotient is at least one, so subtracting one
      does not wrap as long as the quotient fits in 16 bits: the prescaler plus one
      is then exactly the rounded quotient. */
  lemma PrescalerNoUnderflow(clock: uint32, hz: uint32)
    requires 0 < hz <= clock && clock + hz / 2 < 0x1_0000_0000
    requires (clock + hz / 2) / hz <= 0x1_0000
    ensures (clock + hz / 2) / hz >= 1
    ensures (clock + hz / 2) / hz < 0x1_0000 ==>
      PrescalerByDesiredHertz(clock, hz) + 1 == (clock + hz / 2) / hz
    ensures (clock + hz / 2) / hz == 0x1_0000 ==> PrescalerByDesiredHertz(clock, hz) == 0xFFFF
  {
    var q := (clock + hz / 2) / hz;
    DivAtLeastOne(clock + hz / 2, hz);
    PrescalerFormula(clock, hz);
    Cut16(q);
  }

  /** (q % 0x10000 - 1) % 0x10000 for a quotient 1 <= q <= 0x10000. */
  lemma Cut16(q: nat)
    requires 1 <= q <= 0x1_0000
    ensures q < 0x1_0000 ==> (q % 0x1_0000 - 1) % 0x1_0000 == q - 1
    ensures q == 0x1_0000 ==> (q % 0x1_0000 - 1) % 0x1_0000 == 0xFFFF
  {
  }

  lemma DivAtLeastOne(x: nat, y: nat)
    requires 0 < y <= x
    ensures x / y >= 1
  {
    DivBounds(x, y);
  }

  lemma DivSmall(x: nat, y: nat)
    requires 0 < y
    ensures x < y ==> x / y == 0
  {
    if x < y {
      DivUnique(x, y, 0);
    }
  }

  lemma DivAtMost(x: nat, y: nat)
    requires 0 < y
    ensures x / y <= x
  {
    var d := x / y;
    DivBounds(x, y);
    MulAtLeast(d, y);
  }

  lemma {:induction false} MulAtLeast(d: nat, y: nat)
    requires y >= 1
    ensures d <= d * y
  {
    if y > 1 {
      MulAtLeast(d, y - 1);
      assert d * y == d * (y - 1) + d;
    }
  }

  /** A clock that is an exact multiple n of hz yields the prescaler n - 1. */
  lemma PrescalerExact(clock: uint32, hz: uint32, n: nat)
    requires hz != 0 && 1 <= n <= 0x1_0000 && clock == n * hz && clock + hz / 2 < 0x1_0000_0000
    ensures PrescalerByDesiredHertz(clock, hz) == n - 1
  {
    MulMonotone(1, n, hz);
    DivExact(n, hz, hz / 2);
    PrescalerFormula(clock, hz);
    Cut16(n);
  }

  lemma DivExact(n: nat, y: nat, r: nat)
    requires 0 < y && r < y
    ensures (n * y + r) / y == n
  {
    DivUnique(n * y + r, y, n);
  }

  lemma DivUnique(x: nat, y: nat, q: nat)
    requires 0 < y && q * y <= x < q * y + y
    ensures x / y == q
  {
    var d := x / y;
    DivBounds(x, y);
    MulStrict(q, d, y);
    MulStrict(d, q, y);
  }

  lemma DivBounds(x: nat, y: nat)
    requires 0 < y
    ensures (x / y) * y <= x < (x / y + 1) * y
  {
    var d := x / y;
    assert x == d * y + x % y;
    assert (d + 1) * y == d * y + y;
  }

  /** a < b implies a * y + y <= b * y. */
  lemma MulStrict(a: nat, b: nat, y: nat)
    ensures a < b ==> a * y + y <= b * y
  {
    if a < b {
      MulMonotone(a + 1, b, y);
      assert (a + 1) * y == a * y + y;
    }
  }

  lemma {:induction false} MulMonotone(a: nat, b: nat, y: nat)
    requires a <= b
    ensures a * y <= b * y
    decreases b - a
  {
    if a < b {
      MulMonotone(a + 1, b, y);
      assert (a + 1) * y == a * y + y;
    }
  }

  /** timerGetPrescalerByDesiredMhz: the desired rate MHZ_TO_HZ(mhz) = mhz * 1000000
      in hertz.  The product is a signed int in the source, so mhz stays at or below
      2147; mhz 0 divides by zero. */
  function PrescalerByDesiredMhz(clock: uint32, mhz: uint16): (r: uint16)
    requires 1 <= mhz <= 2147
    ensures mhz * 1_000_000 > clock ==> r == 0
  {
    PrescalerByDesiredHertz(clock, mhz * 1_000_000)
  }

  /** A clock that is n whole megahertz multiples of mhz yields the prescaler n - 1. */
  lemma PrescalerMhzExact(clock: uint32, mhz: uint16, n: nat)
    requires 1 <= mhz <= 2147 && 1 <= n <= 0x1_0000
    requires clock == n * (mhz * 1_000_000) && clock + mhz * 500_000 < 0x1_0000_0000
    ensures PrescalerByDesiredMhz(clock, mhz) == n - 1
  {
    PrescalerExact(clock, mhz * 1_000_000, n);
  }
}
